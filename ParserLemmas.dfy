/** Properties of the command-line parser of packages/esw/src/cli/parser.ts,
    stated about the fold `Parser.ParseArgv` that `CliParser.Parse` computes. */
module ParserLemmas {
  import opened Wrappers
  import opened Strings
  import opened Parser

  // ---------------------------------------------------------------------------
  // Tokens that are not flags
  // ---------------------------------------------------------------------------

  /** A positional token is appended to `_`, and parsing goes on with the next token. */
  lemma PositionalStep(t: Tables, argv: seq<string>, acc: Parsed, co: Coercions)
    requires WellShaped(t, acc)
    requires argv != [] && IsPositional(argv[0])
    ensures WellShaped(t, acc.(positionals := acc.positionals + [argv[0]]))
    ensures ParseFrom(t, argv, acc, co)
         == ParseFrom(t, argv[1..], acc.(positionals := acc.positionals + [argv[0]]), co)
  {
    var next := if |argv| > 1 then Some(argv[1]) else None;
    assert ParseToken(t, argv[0], next, acc, co) == Ok(acc.(positionals := acc.positionals + [argv[0]]));
  }

  lemma {:induction false} AllPositionalFrom(t: Tables, argv: seq<string>, acc: Parsed, co: Coercions)
    requires WellShaped(t, acc)
    requires forall k :: 0 <= k < |argv| ==> IsPositional(argv[k])
    ensures ParseFrom(t, argv, acc, co) == Ok(acc.(positionals := acc.positionals + argv))
    decreases |argv|
  {
    if argv == [] {
      assert acc.positionals + argv == acc.positionals;
    } else {
      PositionalHead(t, argv, acc, co);
      AllPositionalFrom(t, argv[1..], acc.(positionals := acc.positionals + [argv[0]]), co);
    }
  }

  /** The first of a run of positional tokens, and the run after it. */
  lemma PositionalHead(t: Tables, argv: seq<string>, acc: Parsed, co: Coercions)
    requires WellShaped(t, acc) && argv != []
    requires forall k :: 0 <= k < |argv| ==> IsPositional(argv[k])
    ensures var a := acc.(positionals := acc.positionals + [argv[0]]);
      && WellShaped(t, a)
      && ParseFrom(t, argv, acc, co) == ParseFrom(t, argv[1..], a, co)
      && (forall k :: 0 <= k < |argv| - 1 ==> IsPositional(argv[1..][k]))
      && a.positionals + argv[1..] == acc.positionals + argv
  {
    PositionalStep(t, argv, acc, co);
    assert forall k :: 0 <= k < |argv| - 1 ==> argv[1..][k] == argv[k + 1];
    HeadThenRest(acc.positionals, argv);
  }

  lemma HeadThenRest(p: seq<string>, s: seq<string>)
    requires s != []
    ensures (p + [s[0]]) + s[1..] == p + s
  {
    assert [s[0]] + s[1..] == s;
  }

  /** With no flag-shaped token, `_` is the argument vector and nothing else is set. */
  lemma OnlyPositionals(argv: seq<string>, spec: Spec, co: Coercions)
    requires ValidKeys(spec)
    requires forall k :: 0 <= k < |argv| ==> IsPositional(argv[k])
    ensures ParseArgv(argv, spec, co) == Ok(Parsed(argv, map[]))
  {
    AllPositionalFrom(BuildTables(spec), argv, Empty, co);
    assert Empty.positionals + argv == argv;
  }

  // ---------------------------------------------------------------------------
  // Aliases are looked up once, and results are stored under the canonical key
  // ---------------------------------------------------------------------------

  /** No alias points at another alias. */
  predicate OneLevel(t: Tables) {
    forall a :: a in t.aliases ==> t.aliases[a] !in t.aliases
  }

  predicate NoAliasKeys(t: Tables, acc: Parsed) {
    forall k :: k in acc.values ==> k !in t.aliases
  }

  lemma FlagStoresCanonical(t: Tables, flag: string, j: nat, count: nat, next: Option<string>, acc: Parsed, co: Coercions)
    requires WellShaped(t, acc) && OneLevel(t) && NoAliasKeys(t, acc)
    ensures var r := ParseFlag(t, flag, j, count, next, acc, co);
      r.Ok? ==> NoAliasKeys(t, r.value)
  {
  }

  lemma {:induction false} GroupStoresCanonical(t: Tables, flags: seq<string>, j: nat, next: Option<string>, acc: Parsed, co: Coercions)
    requires j <= |flags|
    requires WellShaped(t, acc) && OneLevel(t) && NoAliasKeys(t, acc)
    ensures var r := ParseGroup(t, flags, j, next, acc, co);
      r.Ok? ==> NoAliasKeys(t, r.value)
    decreases |flags| - j
  {
    if j < |flags| {
      FlagStoresCanonical(t, flags[j], j, |flags|, next, acc, co);
      var step := ParseFlag(t, flags[j], j, |flags|, next, acc, co);
      if step.Ok? {
        GroupStoresCanonical(t, flags, j + 1, next, step.value, co);
      }
    }
  }

  lemma {:induction false} FromStoresCanonical(t: Tables, rest: seq<string>, acc: Parsed, co: Coercions)
    requires WellShaped(t, acc) && OneLevel(t) && NoAliasKeys(t, acc)
    ensures var r := ParseFrom(t, rest, acc, co);
      r.Ok? ==> NoAliasKeys(t, r.value)
    decreases |rest|
  {
    if rest != [] {
      var next := if |rest| > 1 then Some(rest[1]) else None;
      if !IsPositional(rest[0]) {
        GroupStoresCanonical(t, SeparateCliArgs(rest[0]), 0, next, acc, co);
      }
      var step := ParseToken(t, rest[0], next, acc, co);
      if step.Ok? {
        FromStoresCanonical(t, rest[1..], step.value, co);
      }
    }
  }

  /** With one-level aliases, an alias key (such as `-h`) never appears in the
      result: every value is stored under the name the alias resolves to. */
  lemma AliasKeysNeverStored(argv: seq<string>, spec: Spec, co: Coercions)
    requires OneLevel(BuildTables(spec))
    ensures var r := ParseArgv(argv, spec, co);
      r.Ok? ==> forall k :: k in r.value.values ==> k !in BuildTables(spec).aliases
  {
    if ValidKeys(spec) {
      FromStoresCanonical(BuildTables(spec), argv, Empty, co);
    }
  }

  // ---------------------------------------------------------------------------
  // Presence flags, and bundles of them
  // ---------------------------------------------------------------------------

  /** A flag that the parser treats as present-or-absent: `isCliFlag` holds. */
  predicate IsPresenceFlagIn(t: Tables, flag: string) {
    var (name, inline) := SeparateCliArgKeyValue(flag);
    IsPresence(t, Resolve(t, name), inline)
  }

  /** A presence flag stores the handler's answer to `'true'` whatever its place
      in a bundle and whatever token follows it: it never takes the next token. */
  lemma PresenceIgnoresNext(t: Tables, flag: string, j: nat, count: nat, next: Option<string>, next': Option<string>,
                            acc: Parsed, co: Coercions)
    requires WellShaped(t, acc)
    requires IsPresenceFlagIn(t, flag)
    ensures ParseFlag(t, flag, j, count, next, acc, co) == ParseFlag(t, flag, 0, 1, next', acc, co)
    ensures ParseFlag(t, flag, j, count, next, acc, co)
         == Store(t, acc, Resolve(t, SeparateCliArgKeyValue(flag).0), Text("true"), co)
  {
  }

  /** A token holding one flag is that flag alone, in a group of one. */
  lemma SingleFlagToken(t: Tables, f: string, next: Option<string>, acc: Parsed, co: Coercions)
    requires WellShaped(t, acc)
    requires !IsPositional(f) && SeparateCliArgs(f) == [f]
    ensures ParseToken(t, f, next, acc, co) == ParseFlag(t, f, 0, 1, next, acc, co)
  {
    var step := ParseFlag(t, f, 0, 1, next, acc, co);
    if step.Ok? {
      assert ParseGroup(t, [f], 1, next, step.value, co) == Ok(step.value);
    }
  }

  /** Chaining a group's result into the rest of the vector. */
  function Then(r: Result<Parsed, ParseError>, t: Tables, rest: seq<string>, co: Coercions): Result<Parsed, ParseError>
    requires r.Ok? ==> WellShaped(t, r.value)
  {
    match r
    case Err(e) => Err(e)
    case Ok(a) => ParseFrom(t, rest, a, co)
  }

  lemma {:induction false} PresenceGroupAsTokens(t: Tables, flags: seq<string>, j: nat, next: Option<string>,
                                                  rest: seq<string>, acc: Parsed, co: Coercions)
    requires j <= |flags|
    requires WellShaped(t, acc)
    requires forall k :: j <= k < |flags| ==> |flags[k]| == 2 && flags[k][0] == '-' && IsPresenceFlagIn(t, flags[k])
    ensures Then(ParseGroup(t, flags, j, next, acc, co), t, rest, co) == ParseFrom(t, flags[j..] + rest, acc, co)
    decreases |flags| - j
  {
    if j == |flags| {
      assert flags[j..] + rest == rest;
    } else {
      var f := flags[j];
      var tokens := flags[j..] + rest;
      assert tokens[0] == f && tokens[1..] == flags[j + 1..] + rest;
      var following := if |tokens| > 1 then Some(tokens[1]) else None;
      assert StartsWith(f, "-") && !IsPositional(f);
      assert SeparateCliArgs(f) == [f];
      PresenceIgnoresNext(t, f, j, |flags|, next, following, acc, co);
      SingleFlagToken(t, f, following, acc, co);
      assert ParseToken(t, f, following, acc, co) == ParseFlag(t, f, j, |flags|, next, acc, co);
      var step := ParseFlag(t, f, j, |flags|, next, acc, co);
      if step.Ok? {
        PresenceGroupAsTokens(t, flags, j + 1, next, rest, step.value, co);
      }
    }
  }

  /** POSIX-style bundling: when every letter names a presence flag, `-rf`
      parses exactly as `-r -f`. */
  lemma BundleIsSeparateFlags(argv: seq<string>, cs: string, spec: Spec, co: Coercions)
    requires |cs| >= 2 && cs[0] != '-'
    requires forall k :: 0 <= k < |cs| ==> IsPresenceFlagIn(BuildTables(spec), ['-', cs[k]])
    ensures ParseArgv(["-" + cs] + argv, spec, co) == ParseArgv(ShortFlags(cs) + argv, spec, co)
  {
    if ValidKeys(spec) {
      var t := BuildTables(spec);
      var token := "-" + cs;
      assert StartsWith(token, "-") && !StartsWith(token, "--") && !IsPositional(token);
      assert token[1..] == cs;
      var flags := ShortFlags(cs);
      assert SeparateCliArgs(token) == flags;
      var next := if |argv| > 0 then Some(argv[0]) else None;
      assert ([token] + argv)[1..] == argv;
      PresenceGroupAsTokens(t, flags, 0, next, argv, Empty, co);
      assert flags[0..] == flags;
    }
  }

  /** Expanding a bundle and joining the letters back gives the token again. */
  lemma {:induction false} BundleOfShortFlags(cs: string)
    ensures Bundle(ShortFlags(cs)) == "-" + cs
    decreases |cs|
  {
    if cs != [] {
      var n := |cs|;
      var flags := ShortFlags(cs);
      var init := cs[..n - 1];
      assert flags[..n - 1] == ShortFlags(init) by {
        assert forall k :: 0 <= k < n - 1 ==> flags[..n - 1][k] == ShortFlags(init)[k];
      }
      assert Bundle(flags) == Bundle(ShortFlags(init)) + [cs[n - 1]] by {
        assert flags[n - 1] == ['-', cs[n - 1]];
      }
      BundleOfShortFlags(init);
      assert "-" + cs == ("-" + init) + [cs[n - 1]];
    }
  }

  // ---------------------------------------------------------------------------
  // Inline values: `--name:value` and `--name=value`
  // ---------------------------------------------------------------------------

  /** `--name:value` splits at its first ':'; the value is handed over as a
      string when it holds '=', else wrapped in a one-element array. */
  lemma ColonSplit(name: string, value: string)
    requires StartsWith(name, "--") && ':' !in name
    requires !HasLineTerminator(value)
    ensures SeparateCliArgKeyValue(name + ":" + value)
         == (name, Some(if '=' in value then Text(value) else Wrapped(value)))
  {
    var arg := name + ":" + value;
    assert arg[..|name|] == name;
    assert arg[|name|] == ':';
    assert IndexOf(arg, ':') == |name|;
    assert arg[|name| + 1..] == value;
    RestOfLineWhole(value);
  }

  /** `--name=value` splits at its first '=' when no ':' occurs anywhere. */
  lemma EqualsSplit(name: string, value: string)
    requires StartsWith(name, "--") && ':' !in name && '=' !in name
    requires ':' !in value && !HasLineTerminator(value)
    ensures SeparateCliArgKeyValue(name + "=" + value) == (name, Some(Text(value)))
  {
    var arg := name + "=" + value;
    assert arg[..|name|] == name;
    assert arg[|name|] == '=';
    assert ':' !in arg by {
      forall i | 0 <= i < |arg| ensures arg[i] != ':' {
        if i < |name| { assert arg[i] == name[i]; }
        else if i > |name| { assert arg[i] == value[i - |name| - 1]; }
      }
    }
    assert IndexOf(arg, '=') == |name|;
    assert arg[|name| + 1..] == value;
    RestOfLineWhole(value);
  }

  /** A value cut at the first line terminator: only the first line of a
      multi-line inline value reaches the handler. */
  lemma InlineValueStopsAtLineEnd(name: string, value: string)
    requires StartsWith(name, "--") && ':' !in name && '=' !in name
    requires ':' !in value
    ensures SeparateCliArgKeyValue(name + "=" + value) == (name, Some(Text(RestOfLine(value))))
    ensures HasLineTerminator(value) ==> |RestOfLine(value)| < |value|
  {
    var arg := name + "=" + value;
    assert arg[..|name|] == name;
    assert arg[|name|] == '=';
    assert ':' !in arg by {
      forall i | 0 <= i < |arg| ensures arg[i] != ':' {
        if i < |name| { assert arg[i] == name[i]; }
        else if i > |name| { assert arg[i] == value[i - |name| - 1]; }
      }
    }
    assert IndexOf(arg, '=') == |name|;
    assert arg[|name| + 1..] == value;
  }

  /** A flag with no ':' or '=' is its own name and carries no value. */
  lemma PlainSplit(flag: string)
    requires ':' !in flag && '=' !in flag
    ensures SeparateCliArgKeyValue(flag) == (flag, None)
  {
  }

  // ---------------------------------------------------------------------------
  // `_` never influences the stored values
  // ---------------------------------------------------------------------------

  /** A result with `extra` put before its positionals. */
  function Shifted(r: Result<Parsed, ParseError>, extra: seq<string>): Result<Parsed, ParseError> {
    match r
    case Err(e) => Err(e)
    case Ok(p) => Ok(p.(positionals := extra + p.positionals))
  }

  lemma FlagIgnoresPositionals(t: Tables, flag: string, j: nat, count: nat, next: Option<string>,
                               acc: Parsed, extra: seq<string>, co: Coercions)
    requires WellShaped(t, acc)
    ensures WellShaped(t, acc.(positionals := extra + acc.positionals))
    ensures ParseFlag(t, flag, j, count, next, acc.(positionals := extra + acc.positionals), co)
         == Shifted(ParseFlag(t, flag, j, count, next, acc, co), extra)
  {
    var (name, inline) := SeparateCliArgKeyValue(flag);
    var key := Resolve(t, name);
    if IsPresence(t, key, inline) {
      StoreIgnoresPositionals(t, acc, key, Text("true"), extra, co);
    } else if inline.Some? {
      StoreIgnoresPositionals(t, acc, key, inline.value, extra, co);
    } else if next.Some? {
      StoreIgnoresPositionals(t, acc, key, Text(next.value), extra, co);
    }
  }

  lemma StoreIgnoresPositionals(t: Tables, acc: Parsed, key: string, value: RawValue, extra: seq<string>, co: Coercions)
    requires WellShaped(t, acc)
    ensures WellShaped(t, acc.(positionals := extra + acc.positionals))
    ensures Store(t, acc.(positionals := extra + acc.positionals), key, value, co)
         == Shifted(Store(t, acc, key, value, co), extra)
  {
    assert Previous(acc.(positionals := extra + acc.positionals), key) == Previous(acc, key);
  }

  lemma {:induction false} GroupIgnoresPositionals(t: Tables, flags: seq<string>, j: nat, next: Option<string>,
                                                    acc: Parsed, extra: seq<string>, co: Coercions)
    requires j <= |flags|
    requires WellShaped(t, acc)
    ensures WellShaped(t, acc.(positionals := extra + acc.positionals))
    ensures ParseGroup(t, flags, j, next, acc.(positionals := extra + acc.positionals), co)
         == Shifted(ParseGroup(t, flags, j, next, acc, co), extra)
    decreases |flags| - j
  {
    if j < |flags| {
      FlagIgnoresPositionals(t, flags[j], j, |flags|, next, acc, extra, co);
      var step := ParseFlag(t, flags[j], j, |flags|, next, acc, co);
      if step.Ok? {
        GroupIgnoresPositionals(t, flags, j + 1, next, step.value, extra, co);
      }
    }
  }

  /** Parsing the rest of a vector after `extra` more positionals gives the
      same values, with `extra` in front of `_`. */
  lemma {:induction false} FromIgnoresPositionals(t: Tables, rest: seq<string>, acc: Parsed, extra: seq<string>,
                                                   co: Coercions)
    requires WellShaped(t, acc)
    ensures WellShaped(t, acc.(positionals := extra + acc.positionals))
    ensures ParseFrom(t, rest, acc.(positionals := extra + acc.positionals), co)
         == Shifted(ParseFrom(t, rest, acc, co), extra)
    decreases |rest|
  {
    if rest != [] {
      var shifted := acc.(positionals := extra + acc.positionals);
      var next := if |rest| > 1 then Some(rest[1]) else None;
      if IsPositional(rest[0]) {
        PositionalStep(t, rest, acc, co);
        PositionalStep(t, rest, shifted, co);
        var a := acc.(positionals := acc.positionals + [rest[0]]);
        assert shifted.(positionals := shifted.positionals + [rest[0]])
            == a.(positionals := extra + a.positionals);
        FromIgnoresPositionals(t, rest[1..], a, extra, co);
      } else {
        GroupIgnoresPositionals(t, SeparateCliArgs(rest[0]), 0, next, acc, extra, co);
        var step := ParseToken(t, rest[0], next, acc, co);
        if step.Ok? {
          FromIgnoresPositionals(t, rest[1..], step.value, extra, co);
        }
      }
    }
  }

  /** The flag step alone: the inline value and the next token are stored alike. */
  lemma InlineFlagIsNextFlag(t: Tables, name: string, value: string, next: Option<string>, acc: Parsed, co: Coercions)
    requires WellShaped(t, acc)
    requires StartsWith(name, "--") && ':' !in name && '=' !in name
    requires ':' !in value && !HasLineTerminator(value) && !StartsWith(value, "-")
    requires Resolve(t, name) in t.handlers && !IsBoolean(t.handlers[Resolve(t, name)])
    ensures ParseToken(t, name + "=" + value, next, acc, co) == ParseToken(t, name, Some(value), acc, co)
  {
    var inline := name + "=" + value;
    EqualsSplit(name, value);
    PlainSplit(name);
    assert StartsWith(inline, "--") by { assert inline[..2] == name[..2]; }
    assert SeparateCliArgs(inline) == [inline];
    assert SeparateCliArgs(name) == [name];
    SingleFlagToken(t, inline, next, acc, co);
    SingleFlagToken(t, name, Some(value), acc, co);
  }

  /** The same over the rest of a vector, from a record with an empty `_`. */
  lemma {:induction false} InlineFromIsNextFrom(t: Tables, argv: seq<string>, name: string, value: string,
                                                 acc: Parsed, co: Coercions)
    requires WellShaped(t, acc) && acc.positionals == []
    requires StartsWith(name, "--") && ':' !in name && '=' !in name
    requires ':' !in value && !HasLineTerminator(value) && !StartsWith(value, "-")
    requires Resolve(t, name) in t.handlers && !IsBoolean(t.handlers[Resolve(t, name)])
    ensures ParseFrom(t, [name, value] + argv, acc, co)
         == Shifted(ParseFrom(t, [name + "=" + value] + argv, acc, co), [value])
  {
    var inline := name + "=" + value;
    var nextOfInline := if |argv| > 0 then Some(argv[0]) else None;
    InlineFlagIsNextFlag(t, name, value, nextOfInline, acc, co);
    var separate := [name, value] + argv;
    var step := ParseToken(t, name, Some(value), acc, co);
    assert ParseFrom(t, separate, acc, co) == Then(step, t, [value] + argv, co) by {
      FromStep(t, separate, acc, co);
      assert separate[0] == name && separate[1] == value && separate[1..] == [value] + argv;
    }
    assert ParseFrom(t, [inline] + argv, acc, co) == Then(ParseToken(t, inline, nextOfInline, acc, co), t, argv, co) by {
      FromStep(t, [inline] + argv, acc, co);
      assert ([inline] + argv)[0] == inline && ([inline] + argv)[1..] == argv;
    }
    if step.Ok? {
      var a := step.value;
      assert ParseFrom(t, [value] + argv, a, co) == Shifted(ParseFrom(t, argv, a, co), [value]) by {
        PositionalStep(t, [value] + argv, a, co);
        FromIgnoresPositionals(t, argv, a, [value], co);
        assert ([value] + argv)[1..] == argv;
        assert a.(positionals := a.positionals + [value]) == a.(positionals := [value] + a.positionals);
      }
    }
  }

  /** `--name=value` and `--name value` hand the same value to a non-Boolean
      handler; the separate form also leaves the value in `_`, since the
      parser visits every token again as a positional. */
  lemma InlineValueIsNextToken(argv: seq<string>, name: string, value: string, spec: Spec, co: Coercions)
    requires StartsWith(name, "--") && ':' !in name && '=' !in name
    requires ':' !in value && !HasLineTerminator(value) && !StartsWith(value, "-")
    requires Resolve(BuildTables(spec), name) in BuildTables(spec).handlers
    requires !IsBoolean(BuildTables(spec).handlers[Resolve(BuildTables(spec), name)])
    ensures ParseArgv([name, value] + argv, spec, co)
         == Shifted(ParseArgv([name + "=" + value] + argv, spec, co), [value])
  {
    if ValidKeys(spec) {
      InlineFromIsNextFrom(BuildTables(spec), argv, name, value, Empty, co);
    }
  }

  // ---------------------------------------------------------------------------
  // Flags the spec does not name: values accumulate
  // ---------------------------------------------------------------------------

  /** The default handler applied to each value of a repeated flag in turn. */
  function Accumulate(prev: Option<Value>, values: seq<RawValue>, key: string): (r: Result<Option<Value>, ParseError>)
    requires DefaultShaped(prev)
    ensures r.Ok? ==> DefaultShaped(r.value)
    ensures r.Ok? && (prev.Some? || values != []) ==> r.value.Some?
    ensures r.Err? ==> r.error == NotIterable(key)
    decreases |values|
  {
    if values == [] then Ok(prev)
    else
      match DefaultHandler(values[0], key, prev)
      case Err(e) => Err(e)
      case Ok(v) => Accumulate(Some(v), values[1..], key)
  }

  /** The raw value of a `--key:x` flag: a string when it holds '=', else `[x]`. */
  function ColonValue(x: string): RawValue {
    if '=' in x then Text(x) else Wrapped(x)
  }

  function InlineValues(xs: seq<string>): (r: seq<RawValue>)
    ensures |r| == |xs|
    ensures forall i :: 0 <= i < |xs| ==> r[i] == ColonValue(xs[i])
  {
    if xs == [] then [] else [ColonValue(xs[0])] + InlineValues(xs[1..])
  }

  /** `["--key:x0", "--key:x1", ...]` */
  function ColonFlags(key: string, xs: seq<string>): (r: seq<string>)
    ensures |r| == |xs|
    ensures forall i :: 0 <= i < |xs| ==> r[i] == key + ":" + xs[i]
  {
    if xs == [] then [] else [key + ":" + xs[0]] + ColonFlags(key, xs[1..])
  }

  /** `"k=v"` for each pair. */
  function Assignments(pairs: seq<(string, string)>): (r: seq<string>)
    ensures |r| == |pairs|
    ensures forall i :: 0 <= i < |pairs| ==> r[i] == pairs[i].0 + "=" + pairs[i].1
  {
    if pairs == [] then [] else [pairs[0].0 + "=" + pairs[0].1] + Assignments(pairs[1..])
  }

  /** Assigning the pairs in order: a later pair overrides an earlier one. */
  function Merged(m: map<string, string>, pairs: seq<(string, string)>): map<string, string>
    decreases |pairs|
  {
    if pairs == [] then m else Merged(m[pairs[0].0 := pairs[0].1], pairs[1..])
  }

  predicate WellFormedPairs(pairs: seq<(string, string)>) {
    forall i :: 0 <= i < |pairs| ==>
      '=' !in pairs[i].0 && !HasLineTerminator(pairs[i].0) && !HasLineTerminator(pairs[i].1)
  }

  /** Wrapped values after a list are appended to it, in order. */
  lemma {:induction false} WrappedValuesAppend(items: seq<string>, xs: seq<string>, key: string)
    requires forall i :: 0 <= i < |xs| ==> '=' !in xs[i]
    ensures Accumulate(Some(List(items)), InlineValues(xs), key) == Ok(Some(List(items + xs)))
    decreases |xs|
  {
    if xs == [] {
      assert items + xs == items;
    } else {
      assert InlineValues(xs)[0] == Wrapped(xs[0]);
      assert InlineValues(xs)[1..] == InlineValues(xs[1..]);
      WrappedValuesAppend(items + [xs[0]], xs[1..], key);
      assert items + [xs[0]] + xs[1..] == items + xs;
    }
  }

  /** `k=v` with no '=' in `k` sets entry `k` to `v` of the spread previous value. */
  lemma AssignmentStep(k: string, v: string, key: string, prev: Option<Value>)
    requires DefaultShaped(prev)
    requires '=' !in k && !HasLineTerminator(k) && !HasLineTerminator(v)
    ensures DefaultHandler(Text(k + "=" + v), key, prev) == Ok(Dict(SpreadIntoObject(prev)[k := v]))
  {
    var s := k + "=" + v;
    assert s[|k|] == '=';
    assert IndexOf(s, '=') == |k|;
    assert s[..|k|] == k && s[|k| + 1..] == v;
    RestOfLineWhole(v);
  }

  lemma AssignmentHasNoLineTerminator(k: string, v: string)
    requires !HasLineTerminator(k) && !HasLineTerminator(v)
    ensures !HasLineTerminator(k + "=" + v)
  {
    var s := k + "=" + v;
    forall j | 0 <= j < |s| ensures !IsLineTerminator(s[j]) {
      if j < |k| { assert s[j] == k[j]; }
      else if j > |k| { assert s[j] == v[j - |k| - 1]; }
    }
  }

  /** Assignments after a record are merged into it, in order. */
  lemma {:induction false} AssignmentsMerge(m: map<string, string>, pairs: seq<(string, string)>, key: string)
    requires WellFormedPairs(pairs)
    ensures Accumulate(Some(Dict(m)), InlineValues(Assignments(pairs)), key) == Ok(Some(Dict(Merged(m, pairs))))
    decreases |pairs|
  {
    if pairs != [] {
      var texts := Assignments(pairs);
      assert '=' in texts[0] by { assert texts[0][|pairs[0].0|] == '='; }
      assert InlineValues(texts)[0] == Text(pairs[0].0 + "=" + pairs[0].1);
      assert InlineValues(texts)[1..] == InlineValues(Assignments(pairs[1..])) by {
        assert texts[1..] == Assignments(pairs[1..]);
      }
      AssignmentStep(pairs[0].0, pairs[0].1, key, Some(Dict(m)));
      AssignmentsMerge(m[pairs[0].0 := pairs[0].1], pairs[1..], key);
    }
  }

  /** The record after the accumulated value is stored under `key`. */
  function StoreAccumulated(acc: Parsed, key: string, r: Result<Option<Value>, ParseError>): Result<Parsed, ParseError> {
    match r
    case Err(e) => Err(e)
    case Ok(None) => Ok(acc)
    case Ok(Some(v)) => Ok(acc.(values := acc.values[key := v]))
  }

  /** One `--key:x` token for a key with no alias and no handler. */
  lemma UnknownColonFlagStep(t: Tables, key: string, x: string, next: Option<string>, acc: Parsed, co: Coercions)
    requires WellShaped(t, acc)
    requires StartsWith(key, "--") && ':' !in key && key !in t.aliases && key !in t.handlers
    requires !HasLineTerminator(x)
    ensures ParseToken(t, key + ":" + x, next, acc, co)
         == match DefaultHandler(ColonValue(x), key, Previous(acc, key))
            case Err(e) => Err(e)
            case Ok(v) => Ok(acc.(values := acc.values[key := v]))
  {
    var token := key + ":" + x;
    ColonSplit(key, x);
    assert StartsWith(token, "--") by { assert token[..2] == key[..2]; }
    assert SeparateCliArgs(token) == [token];
    SingleFlagToken(t, token, next, acc, co);
  }

  /** The first token of a non-empty vector, then the rest. */
  lemma FromStep(t: Tables, rest: seq<string>, acc: Parsed, co: Coercions)
    requires WellShaped(t, acc) && rest != []
    ensures ParseFrom(t, rest, acc, co)
         == Then(ParseToken(t, rest[0], if |rest| > 1 then Some(rest[1]) else None, acc, co), t, rest[1..], co)
  {
  }

  /** Repeated `--key:x` flags for a key the spec does not name store the
      default handler's fold over their values. */
  lemma {:induction false} UnknownColonFlags(t: Tables, key: string, xs: seq<string>, acc: Parsed, co: Coercions)
    requires WellShaped(t, acc)
    requires StartsWith(key, "--") && ':' !in key && key !in t.aliases && key !in t.handlers
    requires forall i :: 0 <= i < |xs| ==> !HasLineTerminator(xs[i])
    ensures ParseFrom(t, ColonFlags(key, xs), acc, co)
         == StoreAccumulated(acc, key, Accumulate(Previous(acc, key), InlineValues(xs), key))
    decreases |xs|
  {
    if xs == [] {
      if key in acc.values {
        assert acc.values[key := acc.values[key]] == acc.values;
      }
    } else {
      var step := DefaultHandler(ColonValue(xs[0]), key, Previous(acc, key));
      FirstColonFlag(t, key, xs, acc, co);
      if step.Ok? {
        var a := acc.(values := acc.values[key := step.value]);
        assert Previous(a, key) == Some(step.value);
        UnknownColonFlags(t, key, xs[1..], a, co);
        StoreOverwrites(acc, key, step.value, Accumulate(Some(step.value), InlineValues(xs[1..]), key));
      }
    }
  }

  /** The first of the `--key:x` tokens, and the first step of the fold. */
  lemma FirstColonFlag(t: Tables, key: string, xs: seq<string>, acc: Parsed, co: Coercions)
    requires WellShaped(t, acc) && xs != []
    requires StartsWith(key, "--") && ':' !in key && key !in t.aliases && key !in t.handlers
    requires !HasLineTerminator(xs[0])
    ensures var step := DefaultHandler(ColonValue(xs[0]), key, Previous(acc, key));
      var first := match step case Err(e) => Err(e) case Ok(v) => Ok(acc.(values := acc.values[key := v]));
      && (first.Ok? ==> WellShaped(t, first.value))
      && ParseFrom(t, ColonFlags(key, xs), acc, co) == Then(first, t, ColonFlags(key, xs[1..]), co)
      && Accumulate(Previous(acc, key), InlineValues(xs), key)
         == (match step case Err(e) => Err(e) case Ok(v) => Accumulate(Some(v), InlineValues(xs[1..]), key))
  {
    var tokens := ColonFlags(key, xs);
    var next := if |tokens| > 1 then Some(tokens[1]) else None;
    var values := InlineValues(xs);
    FromStep(t, tokens, acc, co);
    assert tokens[1..] == ColonFlags(key, xs[1..]);
    UnknownColonFlagStep(t, key, xs[0], next, acc, co);
    assert values[0] == ColonValue(xs[0]) && values[1..] == InlineValues(xs[1..]);
  }

  lemma StoreOverwrites(acc: Parsed, key: string, v: Value, r: Result<Option<Value>, ParseError>)
    requires r.Ok? ==> r.value.Some?
    ensures StoreAccumulated(acc.(values := acc.values[key := v]), key, r) == StoreAccumulated(acc, key, r)
  {
    if r.Ok? {
      assert acc.values[key := v][key := r.value.value] == acc.values[key := r.value.value];
    }
  }

  /** `--inject:./a.ts --inject:./b.ts` gives `inject: ['./a.ts', './b.ts']`. */
  lemma RepeatedWrappedFlagCollects(key: string, xs: seq<string>, spec: Spec, co: Coercions)
    requires ValidKeys(spec)
    requires StartsWith(key, "--") && ':' !in key
    requires key !in BuildTables(spec).aliases && key !in BuildTables(spec).handlers
    requires forall i :: 0 <= i < |xs| ==> '=' !in xs[i] && !HasLineTerminator(xs[i])
    ensures ParseArgv(ColonFlags(key, xs), spec, co)
         == Ok(Parsed([], if xs == [] then map[] else map[key := List(xs)]))
  {
    var t := BuildTables(spec);
    UnknownColonFlags(t, key, xs, Empty, co);
    if xs != [] {
      assert InlineValues(xs)[0] == Wrapped(xs[0]);
      assert InlineValues(xs)[1..] == InlineValues(xs[1..]);
      WrappedValuesAppend([xs[0]], xs[1..], key);
      assert [xs[0]] + xs[1..] == xs;
    }
  }

  /** `--loader:.css=text --loader:.svg=file` gives one record holding both entries. */
  lemma RepeatedAssignmentFlagMerges(key: string, pairs: seq<(string, string)>, spec: Spec, co: Coercions)
    requires ValidKeys(spec)
    requires StartsWith(key, "--") && ':' !in key
    requires key !in BuildTables(spec).aliases && key !in BuildTables(spec).handlers
    requires WellFormedPairs(pairs)
    ensures ParseArgv(ColonFlags(key, Assignments(pairs)), spec, co)
         == Ok(Parsed([], if pairs == [] then map[] else map[key := Dict(Merged(map[], pairs))]))
  {
    var t := BuildTables(spec);
    var texts := Assignments(pairs);
    forall i | 0 <= i < |texts| ensures !HasLineTerminator(texts[i]) {
      AssignmentHasNoLineTerminator(pairs[i].0, pairs[i].1);
    }
    UnknownColonFlags(t, key, texts, Empty, co);
    if pairs != [] {
      assert '=' in texts[0] by { assert texts[0][|pairs[0].0|] == '='; }
      assert InlineValues(texts)[0] == Text(pairs[0].0 + "=" + pairs[0].1);
      assert InlineValues(texts)[1..] == InlineValues(Assignments(pairs[1..])) by {
        assert texts[1..] == Assignments(pairs[1..]);
      }
      AssignmentStep(pairs[0].0, pairs[0].1, key, None);
      AssignmentsMerge(map[pairs[0].0 := pairs[0].1], pairs[1..], key);
    }
  }

  // ---------------------------------------------------------------------------
  // Scenarios
  // ---------------------------------------------------------------------------

  /** Dash prefixes read off the first characters. */
  lemma Dashes(s: string)
    ensures |s| >= 1 ==> (StartsWith(s, "-") <==> s[0] == '-')
    ensures |s| >= 2 ==> (StartsWith(s, "--") <==> s[0] == '-' && s[1] == '-')
  {
    if |s| >= 1 { assert s[..1] == [s[0]]; }
    if |s| >= 2 { assert s[..2] == [s[0], s[1]]; }
  }

  /** `--name bar` with a `String` handler: the value is stored, and `bar` is
      also kept as a positional. */
  lemma NextTokenAlsoPositional(co: Coercions)
    ensures ParseArgv(["--name", "bar"], [("--name", Call(StringH))], co)
         == Ok(Parsed(["bar"], map["--name" := Str("bar")]))
  {
    var spec := [("--name", Call(StringH))];
    var t := BuildTables(spec);
    Dashes("--name");
    Dashes("bar");
    assert ValidKeys(spec);
    assert t.handlers == map["--name" := Call(StringH)] && t.aliases == map[];
    PlainSplit("--name");
    assert SeparateCliArgs("--name") == ["--name"];
    SingleFlagToken(t, "--name", Some("bar"), Empty, co);
    var a := Parsed([], map["--name" := Str("bar")]);
    assert NextIsValue(t, "--name", Some("bar"));
    assert ParseFlag(t, "--name", 0, 1, Some("bar"), Empty, co) == Ok(a);
    FromStep(t, ["--name", "bar"], Empty, co);
    assert ["--name", "bar"][1..] == ["bar"];
    PositionalStep(t, ["bar"], a, co);
    assert ["bar"][1..] == [] && a.positionals + ["bar"] == ["bar"];
  }

  /** A negative number is a value for a numeric handler, and is then visited
      again on its own as an unknown flag `-5`, stored as `'true'`. */
  lemma NegativeNumberValue(co: Coercions)
    ensures ParseArgv(["--count", "-5"], [("--count", Call(NumberH))], co)
         == Ok(Parsed([], map["--count" := co.toNumber("-5"), "-5" := Str("true")]))
  {
    var spec := [("--count", Call(NumberH))];
    var t := BuildTables(spec);
    assert ValidKeys(spec) by {
      Dashes("--count");
    }
    assert t == Tables(map[], map["--count" := Call(NumberH)]);
    var a := Parsed([], map["--count" := co.toNumber("-5")]);
    var b := Parsed([], map["--count" := co.toNumber("-5"), "-5" := Str("true")]);
    NumberFlagTakesNegative(t, co);
    NegativeAsFlag(t, a, co);
    assert ParseFrom(t, ["-5"], a, co) == Ok(b) by {
      FromStep(t, ["-5"], a, co);
      assert ["-5"][1..] == [];
    }
    FromStep(t, ["--count", "-5"], Empty, co);
    assert ["--count", "-5"][1..] == ["-5"];
  }

  /** `--count -5`: a number handler takes `-5` as its value. */
  lemma NumberFlagTakesNegative(t: Tables, co: Coercions)
    requires t == Tables(map[], map["--count" := Call(NumberH)])
    ensures ParseToken(t, "--count", Some("-5"), Empty, co) == Ok(Parsed([], map["--count" := co.toNumber("-5")]))
  {
    Dashes("--count");
    Dashes("-5");
    PlainSplit("--count");
    assert SeparateCliArgs("--count") == ["--count"];
    assert IsNumericLiteral("-5") by {
      assert "-5"[1..] == "5";
      assert DigitRun("5") == 1;
    }
    assert NextIsValue(t, "--count", Some("-5"));
    SingleFlagToken(t, "--count", Some("-5"), Empty, co);
  }

  /** `-5` on its own is an unknown short flag. */
  lemma NegativeAsFlag(t: Tables, a: Parsed, co: Coercions)
    requires t == Tables(map[], map["--count" := Call(NumberH)])
    requires a == Parsed([], map["--count" := co.toNumber("-5")])
    ensures ParseToken(t, "-5", None, a, co) == Ok(Parsed([], map["--count" := co.toNumber("-5"), "-5" := Str("true")]))
  {
    Dashes("-5");
    PlainSplit("-5");
    assert SeparateCliArgs("-5") == ["-5"];
    SingleFlagToken(t, "-5", None, a, co);
  }

  /** The same token after a `String` flag is taken for another flag. */
  lemma NegativeNumberForStringFlag(co: Coercions)
    ensures ParseArgv(["--name", "-5"], [("--name", Call(StringH))], co)
         == Err(RequiresArgument("--name", "--name"))
  {
    var spec := [("--name", Call(StringH))];
    var t := BuildTables(spec);
    Dashes("--name");
    Dashes("-5");
    assert ValidKeys(spec);
    assert t.handlers == map["--name" := Call(StringH)] && t.aliases == map[];
    PlainSplit("--name");
    assert SeparateCliArgs("--name") == ["--name"];
    SingleFlagToken(t, "--name", Some("-5"), Empty, co);
    assert !NextIsValue(t, "--name", Some("-5"));
    FromStep(t, ["--name", "-5"], Empty, co);
  }

  /** An alias stores under the name it stands for. */
  lemma AliasStoresUnderCanonical(co: Coercions)
    ensures ParseArgv(["-h"], [("-h", Name("--help")), ("--help", Call(BooleanH))], co)
         == Ok(Parsed([], map["--help" := Bool(true)]))
  {
    var spec := [("-h", Name("--help")), ("--help", Call(BooleanH))];
    var t := BuildTables(spec);
    Dashes("-h");
    Dashes("--help");
    assert ValidKeys(spec);
    assert spec[..1] == [("-h", Name("--help"))];
    assert IsCliSpecKey(Name("--help"));
    assert BuildTables(spec[..1]) == Tables(map["-h" := "--help"], map[]) by {
      assert spec[..1][..0] == [];
    }
    assert t.aliases == map["-h" := "--help"] && t.handlers == map["--help" := Call(BooleanH)];
    PlainSplit("-h");
    assert SeparateCliArgs("-h") == ["-h"];
    SingleFlagToken(t, "-h", None, Empty, co);
    assert ParseFlag(t, "-h", 0, 1, None, Empty, co) == Ok(Parsed([], map["--help" := Bool(true)]));
    FromStep(t, ["-h"], Empty, co);
    assert ["-h"][1..] == [];
  }

  /** An alias that is missing its argument is reported with the name it stands for. */
  lemma AliasNamedInMessage(co: Coercions)
    ensures ParseArgv(["-n"], [("-n", Name("--name")), ("--name", Call(StringH))], co)
         == Err(RequiresArgument("-n", "--name"))
  {
    var spec := [("-n", Name("--name")), ("--name", Call(StringH))];
    var t := BuildTables(spec);
    assert ValidKeys(spec) && IsCliSpecKey(Name("--name")) by {
      Dashes("-n");
      Dashes("--name");
    }
    assert t == Tables(map["-n" := "--name"], map["--name" := Call(StringH)]) by {
      assert spec[..1] == [("-n", Name("--name"))];
      assert BuildTables(spec[..1]) == Tables(map["-n" := "--name"], map[]) by {
        assert spec[..1][..0] == [];
      }
    }
    assert ParseToken(t, "-n", None, Empty, co) == Err(RequiresArgument("-n", "--name")) by {
      Dashes("-n");
      PlainSplit("-n");
      assert SeparateCliArgs("-n") == ["-n"];
      SingleFlagToken(t, "-n", None, Empty, co);
      assert ParseFlag(t, "-n", 0, 1, None, Empty, co) == Err(RequiresArgument("-n", "--name"));
    }
    FromStep(t, ["-n"], Empty, co);
  }

  /** The message of that error names both the alias and what it stands for. */
  lemma AliasMessage()
    ensures Message(RequiresArgument("-n", "--name")) == "option requires argument: -n (alias for --name)"
  {
  }

  /** Aliases are looked up once: an alias of an alias stores under the middle
      name, with the default handler's `'true'`. */
  lemma AliasOfAliasNotFollowed(co: Coercions)
    ensures ParseArgv(["-h"], [("-h", Name("-x")), ("-x", Name("--help")), ("--help", Call(BooleanH))], co)
         == Ok(Parsed([], map["-x" := Str("true")]))
  {
    var spec := [("-h", Name("-x")), ("-x", Name("--help")), ("--help", Call(BooleanH))];
    var t := BuildTables(spec);
    assert ValidKeys(spec) && IsCliSpecKey(Name("-x")) && IsCliSpecKey(Name("--help")) by {
      Dashes("-h");
      Dashes("-x");
      Dashes("--help");
    }
    assert t == Tables(map["-h" := "-x", "-x" := "--help"], map["--help" := Call(BooleanH)]) by {
      assert spec[..2] == [("-h", Name("-x")), ("-x", Name("--help"))];
      assert BuildTables(spec[..2][..1]) == Tables(map["-h" := "-x"], map[]) by {
        assert spec[..2][..1] == [("-h", Name("-x"))] && spec[..2][..1][..0] == [];
      }
      assert BuildTables(spec[..2]) == Tables(map["-h" := "-x", "-x" := "--help"], map[]);
    }
    AliasOfAliasToken(t, co);
    FromStep(t, ["-h"], Empty, co);
    assert ["-h"][1..] == [];
  }

  /** `-h` resolves once, to `-x`, which has no handler of its own. */
  lemma AliasOfAliasToken(t: Tables, co: Coercions)
    requires t == Tables(map["-h" := "-x", "-x" := "--help"], map["--help" := Call(BooleanH)])
    ensures ParseToken(t, "-h", None, Empty, co) == Ok(Parsed([], map["-x" := Str("true")]))
  {
    Dashes("-h");
    PlainSplit("-h");
    assert SeparateCliArgs("-h") == ["-h"];
    SingleFlagToken(t, "-h", None, Empty, co);
    assert ParseFlag(t, "-h", 0, 1, None, Empty, co) == Ok(Parsed([], map["-x" := Str("true")]));
  }

  /** A spec entry `[String]` is an array, not a function: using the flag throws. */
  lemma ArrayEntryThrows(co: Coercions)
    ensures ParseArgv(["--external", "react"], [("--external", ArrayOf(StringH))], co)
         == Err(NotAFunction("--external"))
  {
    var spec := [("--external", ArrayOf(StringH))];
    var t := BuildTables(spec);
    Dashes("--external");
    Dashes("react");
    assert ValidKeys(spec);
    assert t.handlers == map["--external" := ArrayOf(StringH)] && t.aliases == map[];
    PlainSplit("--external");
    assert SeparateCliArgs("--external") == ["--external"];
    SingleFlagToken(t, "--external", Some("react"), Empty, co);
    assert NextIsValue(t, "--external", Some("react"));
    FromStep(t, ["--external", "react"], Empty, co);
  }

  /** The two errors the parser throws itself, for any flag. The short-argument
      error is raised exactly when a flag that is not a presence flag has more
      letters of its group after it. "option requires argument" is raised
      exactly when such a flag is the last of its group and has no inline
      value, and the next token is missing or is longer than one character and
      starts with '-', unless it is a numeric literal for a `Number` or
      `BigInt` handler. Every other failure comes from calling the handler. */
  lemma ParseFlagErrors(t: Tables, flag: string, j: nat, count: nat, next: Option<string>, acc: Parsed, co: Coercions)
    requires WellShaped(t, acc)
    ensures var (name, inline) := SeparateCliArgKeyValue(flag);
      var key := Resolve(t, name);
      var r := ParseFlag(t, flag, j, count, next, acc, co);
      && (r == Err(FollowedByShortArgument(name)) <==> !IsPresence(t, key, inline) && j + 1 < count)
      && (r == Err(RequiresArgument(name, key)) <==>
            && !IsPresence(t, key, inline) && count <= j + 1 && inline.None?
            && (|| next.None?
                || (&& |next.value| > 1 && StartsWith(next.value, "-")
                    && !(IsNumericLiteral(next.value) && key in t.handlers && IsNumeric(t.handlers[key])))))
      && (r.Err? ==> r.error.FollowedByShortArgument? || r.error.RequiresArgument?
                     || r.error.NotAFunction? || r.error.NotIterable?)
  {
  }

  /** A flag that takes a value cannot sit before another letter of a bundle. */
  lemma ValueFlagInsideBundle(co: Coercions)
    ensures ParseArgv(["-nv"], [("-n", Call(StringH))], co) == Err(FollowedByShortArgument("-n"))
    ensures Message(FollowedByShortArgument("-n"))
         == "option requires argument (but was followed by another short argument): -n"
  {
    var spec := [("-n", Call(StringH))];
    var t := BuildTables(spec);
    Dashes("-n");
    Dashes("-nv");
    assert ValidKeys(spec);
    assert t.handlers == map["-n" := Call(StringH)] && t.aliases == map[];
    assert "-nv"[1..] == "nv";
    assert ShortFlags("nv") == ["-n", "-v"];
    assert SeparateCliArgs("-nv") == ["-n", "-v"];
    PlainSplit("-n");
    assert ParseFlag(t, "-n", 0, 2, None, Empty, co) == Err(FollowedByShortArgument("-n"));
    FromStep(t, ["-nv"], Empty, co);
  }

  /** A record followed by a wrapped value: spreading the record into an array throws. */
  lemma RecordThenWrappedThrows(co: Coercions)
    ensures ParseArgv(ColonFlags("--define", ["a=1", "b"]), [], co) == Err(NotIterable("--define"))
  {
    DefineFlagsFold(co);
    RecordThenWrappedFold();
  }

  /** `--define:a=1 --define:b` stores the fold of `a=1` and `[b]`. */
  lemma DefineFlagsFold(co: Coercions)
    ensures ParseArgv(ColonFlags("--define", ["a=1", "b"]), [], co)
         == StoreAccumulated(Empty, "--define", Accumulate(None, [Text("a=1"), Wrapped("b")], "--define"))
  {
    var t := BuildTables([]);
    var key := "--define";
    var xs := ["a=1", "b"];
    Dashes(key);
    assert !HasLineTerminator("a=1") && !HasLineTerminator("b");
    UnknownColonFlags(t, key, xs, Empty, co);
    assert InlineValues(xs) == [Text("a=1"), Wrapped("b")] by {
      assert "a=1"[1] == '=' && "b"[0] == 'b';
    }
  }

  /** The fold: `a=1` makes a record, and `[b]` cannot be spread after it. */
  lemma RecordThenWrappedFold()
    ensures Accumulate(None, [Text("a=1"), Wrapped("b")], "--define") == Err(NotIterable("--define"))
  {
    var key := "--define";
    assert DefaultHandler(Text("a=1"), key, None) == Ok(Dict(map["a" := "1"])) by {
      ThreeChars('a', '=', '1');
      AssignmentStep("a", "1", key, None);
    }
    assert Accumulate(None, [Text("a=1"), Wrapped("b")], key)
        == Accumulate(Some(Dict(map["a" := "1"])), [Wrapped("b")], key);
  }

  lemma ThreeChars(a: char, b: char, c: char)
    ensures [a] + [b] + [c] == [a, b, c]
  {
  }

  /** A string key in the spec that does not start with '-' is rejected. */
  lemma KeyWithoutDash(argv: seq<string>, co: Coercions)
    ensures ParseArgv(argv, [("name", Call(StringH))], co) == Err(MalformedSpec)
    ensures Message(MalformedSpec) == "argument key must start with '-'"
  {
    Dashes("name");
  }
}
