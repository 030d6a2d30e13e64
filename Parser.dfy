/** The hand-written command-line parser of packages/esw/src/cli/parser.ts.
    An argument vector and a declarative spec become a record holding the
    positional tokens (`_`) and one value per canonical flag name.

    The parse is a method of the class `CliParser` (the source's class, whose
    `argv` is fixed by the constructor); it is proved equal to `ParseArgv`, a
    fold over the argument vector, and the properties of the parser are stated
    about that fold. */
module Parser {
  import opened Wrappers
  import opened Strings

  /** What a handler is called with: `string | [string]`. The one-element
      array comes from a `--name:value` flag whose value holds no `=`. */
  datatype RawValue = Text(s: string) | Wrapped(s: string)

  /** A value of the result record. `Opaque` stands for whatever `Number`,
      `BigInt` or a custom handler returns: the parser never looks inside it. */
  datatype Value =
    | Str(s: string)
    | Bool(b: bool)
    | List(items: seq<string>)
    | Dict(entries: map<string, string>)
    | Opaque(tag: nat)

  /** The functions a spec may give as a handler. The built-ins are told apart
      by identity in the source (`value === Boolean`, `typeHandler === Number`). */
  datatype Handler =
    | BooleanH
    | StringH
    | NumberH
    | BigIntH
    | Custom(call: (RawValue, string, Option<Value>) -> Value)

  /** A spec value: a string (an alias when it starts with '-'), a handler, or
      an array holding one handler. */
  datatype SpecValue = Name(s: string) | Call(h: Handler) | ArrayOf(h: Handler)

  /** The spec object, as `Object.entries` lists it. */
  type Spec = seq<(string, SpecValue)>

  /** The numeric coercions `Number(s)` and `BigInt(s)`, left abstract. */
  datatype Coercions = Coercions(toNumber: string -> Value, toBigInt: string -> Value)

  /** The errors a parse can end with: the two the source throws, and the two
      `TypeError`s the language raises when the source calls a spec value that
      is not a function or spreads a previous value that is not iterable. */
  datatype ParseError =
    | MalformedSpec
    | FollowedByShortArgument(name: string)
    | RequiresArgument(name: string, canonical: string)
    | NotAFunction(key: string)
    | NotIterable(key: string)

  /** The result record: `_` and the stored flag values. */
  datatype Parsed = Parsed(positionals: seq<string>, values: map<string, Value>)

  /** `aliasMap` and `handlerMap` of the source. */
  datatype Tables = Tables(aliases: map<string, string>, handlers: map<string, SpecValue>)

  /** The text of the errors the source throws itself. */
  function Message(e: ParseError): string
    requires e.MalformedSpec? || e.FollowedByShortArgument? || e.RequiresArgument?
  {
    match e
    case MalformedSpec => "argument key must start with '-'"
    case FollowedByShortArgument(name) =>
      "option requires argument (but was followed by another short argument): " + name
    case RequiresArgument(name, canonical) =>
      "option requires argument: " + name
      + (if name == canonical then "" else " (alias for " + canonical + ")")
  }

  /** `isCliSpecKey(value)`: a string starting with '-'. */
  predicate IsCliSpecKey(v: SpecValue) {
    v.Name? && StartsWith(v.s, "-")
  }

  predicate IsBoolean(v: SpecValue) {
    v.Call? && v.h.BooleanH?
  }

  predicate IsNumeric(v: SpecValue) {
    v.Call? && (v.h.NumberH? || v.h.BigIntH?)
  }

  /** `-xyz` expanded to `-x`, `-y`, `-z`. */
  function ShortFlags(cs: string): (flags: seq<string>)
    ensures |flags| == |cs|
    ensures forall k :: 0 <= k < |cs| ==> flags[k] == ['-', cs[k]]
  {
    if cs == [] then [] else [['-', cs[0]]] + ShortFlags(cs[1..])
  }

  /** `separateCliArgs` */
  function SeparateCliArgs(arg: string): seq<string> {
    if !StartsWith(arg, "-") then []
    else if StartsWith(arg, "--") || |arg| == 2 then [arg]
    else ShortFlags(arg[1..])
  }

  /** The inverse of the expansion: one dash, then the letter of each short flag. */
  function Bundle(flags: seq<string>): string
    requires forall k :: 0 <= k < |flags| ==> |flags[k]| == 2
  {
    if flags == [] then "-" else Bundle(flags[..|flags| - 1]) + [flags[|flags| - 1][1]]
  }

  /** `separateCliArgKeyValue`: `--name:value` splits at the first ':', else
      `--name=value` at the first '='; single-dash flags never carry a value. */
  function SeparateCliArgKeyValue(arg: string): (string, Option<RawValue>) {
    if StartsWith(arg, "--") && ':' in arg then
      var k := IndexOf(arg, ':');
      var value := RestOfLine(arg[k + 1..]);
      (arg[..k], Some(if '=' in value then Text(value) else Wrapped(value)))
    else if StartsWith(arg, "--") && '=' in arg then
      var k := IndexOf(arg, '=');
      (arg[..k], Some(Text(RestOfLine(arg[k + 1..]))))
    else
      (arg, None)
  }

  /** `'0'`, `'1'`, ... as object keys. */
  function IndexEntries(xs: seq<string>): map<string, string> {
    if xs == [] then map[]
    else IndexEntries(xs[..|xs| - 1])[NatToString(|xs| - 1) := xs[|xs| - 1]]
  }

  /** A string iterated (spread) as its one-character strings. */
  function CharStrings(s: string): (r: seq<string>)
    ensures |r| == |s|
    ensures forall k :: 0 <= k < |s| ==> r[k] == [s[k]]
  {
    if s == [] then [] else [[s[0]]] + CharStrings(s[1..])
  }

  /** The shapes the default handler ever stores. */
  predicate DefaultShaped(prev: Option<Value>) {
    prev.None? || prev.value.Str? || prev.value.List? || prev.value.Dict?
  }

  /** `{ ...prev }` */
  function SpreadIntoObject(prev: Option<Value>): map<string, string>
    requires DefaultShaped(prev)
  {
    match prev
    case None => map[]
    case Some(Dict(m)) => m
    case Some(List(xs)) => IndexEntries(xs)
    case Some(Str(t)) => IndexEntries(CharStrings(t))
  }

  /** `defaultHandler`, for flags the spec does not name. */
  function DefaultHandler(value: RawValue, key: string, prev: Option<Value>): (r: Result<Value, ParseError>)
    requires DefaultShaped(prev)
    ensures r.Ok? ==> DefaultShaped(Some(r.value))
    ensures r.Err? <==> value.Wrapped? && prev.Some? && prev.value.Dict?
    ensures r.Err? ==> r.error == NotIterable(key)
  {
    match value
    case Wrapped(s) =>
      (match prev
       case None => Ok(List([s]))
       case Some(List(xs)) => Ok(List(xs + [s]))
       case Some(Str(t)) => Ok(List(CharStrings(t) + [s]))
       case Some(Dict(_)) => Err(NotIterable(key)))
    case Text(s) =>
      if '=' in s then
        var k := IndexOf(s, '=');
        Ok(Dict(SpreadIntoObject(prev)[s[..k] := RestOfLine(s[k + 1..])]))
      else
        Ok(Str(s))
  }

  /** `/^-?\d*(\.(?=\d))?\d*$/.test(s)` */
  predicate IsNumericLiteral(s: string) {
    var t := if |s| > 0 && s[0] == '-' then s[1..] else s;
    var k := DigitRun(t);
    k == |t| || (t[k] == '.' && k + 1 < |t| && DigitRun(t[k + 1..]) == |t| - (k + 1))
  }

  /** Length of the run of ASCII digits `s` starts with. */
  function DigitRun(s: string): (k: nat)
    ensures k <= |s|
    ensures forall i :: 0 <= i < k ==> IsDigit(s[i])
    ensures k < |s| ==> !IsDigit(s[k])
  {
    if s == [] || !IsDigit(s[0]) then 0 else 1 + DigitRun(s[1..])
  }

  /** The loop at parser.ts:95-102, as a fold over the entries. */
  function BuildTables(spec: Spec): Tables {
    if spec == [] then Tables(map[], map[])
    else AddEntry(BuildTables(spec[..|spec| - 1]), spec[|spec| - 1])
  }

  function AddEntry(t: Tables, entry: (string, SpecValue)): Tables {
    if IsCliSpecKey(entry.1) then t.(aliases := t.aliases[entry.0 := entry.1.s])
    else t.(handlers := t.handlers[entry.0 := entry.1])
  }

  /** One lookup in the alias map. */
  function Resolve(t: Tables, name: string): string {
    if name in t.aliases then t.aliases[name] else name
  }

  /** The spec values are keyed by strings starting with '-' (`validateSpec`). */
  predicate ValidKeys(spec: Spec) {
    forall k :: 0 <= k < |spec| ==> StartsWith(spec[k].0, "-")
  }

  /** Keys outside the handler map only ever hold what the default handler returns. */
  predicate WellShaped(t: Tables, acc: Parsed) {
    forall k :: k in acc.values && k !in t.handlers ==> DefaultShaped(Some(acc.values[k]))
  }

  function Previous(acc: Parsed, key: string): Option<Value> {
    if key in acc.values then Some(acc.values[key]) else None
  }

  /** The value a built-in or custom handler returns. `Boolean` of a non-empty
      string or of an array is `true`; `String` of `[s]` is `s`. */
  function Apply(h: Handler, value: RawValue, key: string, prev: Option<Value>, co: Coercions): Value {
    match h
    case BooleanH => Bool(value.Wrapped? || value.s != "")
    case StringH => Str(value.s)
    case NumberH => co.toNumber(value.s)
    case BigIntH => co.toBigInt(value.s)
    case Custom(f) => f(value, key, prev)
  }

  /** Calling the handler registered for `key`, or the default handler. */
  function Invoke(t: Tables, key: string, value: RawValue, prev: Option<Value>, co: Coercions): Result<Value, ParseError>
    requires key !in t.handlers ==> DefaultShaped(prev)
  {
    if key !in t.handlers then DefaultHandler(value, key, prev)
    else
      match t.handlers[key]
      case Name(_) => Err(NotAFunction(key))
      case ArrayOf(_) => Err(NotAFunction(key))
      case Call(h) => Ok(Apply(h, value, key, prev, co))
  }

  /** `parsedResult[key] = handler(value, key, parsedResult[key])` */
  function Store(t: Tables, acc: Parsed, key: string, value: RawValue, co: Coercions): (r: Result<Parsed, ParseError>)
    requires WellShaped(t, acc)
    ensures r.Ok? ==> WellShaped(t, r.value)
    ensures r.Ok? ==> r.value.positionals == acc.positionals
    ensures r.Ok? ==> r.value.values.Keys == acc.values.Keys + {key}
    ensures r.Err? ==> r.error.NotAFunction? || r.error.NotIterable?
  {
    match Invoke(t, key, value, Previous(acc, key), co)
    case Err(e) => Err(e)
    case Ok(v) => Ok(acc.(values := acc.values[key := v]))
  }

  /** `isCliFlag`: a `Boolean` entry, or a flag without an entry and without an inline value. */
  predicate IsPresence(t: Tables, key: string, inline: Option<RawValue>) {
    if key in t.handlers then IsBoolean(t.handlers[key]) else inline.None?
  }

  /** The guard at parser.ts:139-148, negated: there is a next token, and it
      does not look like a flag, unless it is a number for a numeric handler. */
  predicate NextIsValue(t: Tables, key: string, next: Option<string>) {
    next.Some?
    && !(|next.value| > 1 && StartsWith(next.value, "-")
         && !(IsNumericLiteral(next.value) && key in t.handlers && IsNumeric(t.handlers[key])))
  }

  /** The body of the inner `forEach` (parser.ts:111-174): the flag at position
      `j` of a group of `count`, whose token is followed by `next`. */
  function ParseFlag(t: Tables, flag: string, j: nat, count: nat, next: Option<string>, acc: Parsed, co: Coercions)
    : (r: Result<Parsed, ParseError>)
    requires WellShaped(t, acc)
    ensures r.Ok? ==> WellShaped(t, r.value) && r.value.positionals == acc.positionals
    ensures r.Err? ==> !r.error.MalformedSpec?
  {
    var (name, inline) := SeparateCliArgKeyValue(flag);
    var key := Resolve(t, name);
    var presence := IsPresence(t, key, inline);
    if !presence && j + 1 < count then Err(FollowedByShortArgument(name))
    else if presence then Store(t, acc, key, Text("true"), co)
    else if inline.None? then
      if !NextIsValue(t, key, next) then Err(RequiresArgument(name, key))
      else Store(t, acc, key, Text(next.value), co)
    else Store(t, acc, key, inline.value, co)
  }

  /** The flags of one token, from position `j` on. */
  function ParseGroup(t: Tables, flags: seq<string>, j: nat, next: Option<string>, acc: Parsed, co: Coercions)
    : (r: Result<Parsed, ParseError>)
    requires j <= |flags|
    requires WellShaped(t, acc)
    ensures r.Ok? ==> WellShaped(t, r.value) && r.value.positionals == acc.positionals
    ensures r.Err? ==> !r.error.MalformedSpec?
    decreases |flags| - j
  {
    if j == |flags| then Ok(acc)
    else
      match ParseFlag(t, flags[j], j, |flags|, next, acc, co)
      case Err(e) => Err(e)
      case Ok(a) => ParseGroup(t, flags, j + 1, next, a, co)
  }

  /** A token kept verbatim in `_` (parser.ts:104-107). */
  predicate IsPositional(token: string) {
    |token| < 2 || !StartsWith(token, "-")
  }

  /** The tokens of `argv` that are positional, in order. */
  function Positionals(argv: seq<string>): seq<string> {
    if argv == [] then []
    else (if IsPositional(argv[0]) then [argv[0]] else []) + Positionals(argv[1..])
  }

  /** The body of the outer `forEach` (parser.ts:103-175). */
  function ParseToken(t: Tables, token: string, next: Option<string>, acc: Parsed, co: Coercions)
    : (r: Result<Parsed, ParseError>)
    requires WellShaped(t, acc)
    ensures r.Ok? ==> WellShaped(t, r.value)
    ensures r.Ok? ==> r.value.positionals == acc.positionals + (if IsPositional(token) then [token] else [])
    ensures r.Err? ==> !r.error.MalformedSpec?
  {
    if IsPositional(token) then Ok(acc.(positionals := acc.positionals + [token]))
    else ParseGroup(t, SeparateCliArgs(token), 0, next, acc, co)
  }

  /** The tokens of `rest` in turn, each seeing the token after it. Nothing is
      skipped: a token taken as a flag's value is visited again. */
  function ParseFrom(t: Tables, rest: seq<string>, acc: Parsed, co: Coercions): (r: Result<Parsed, ParseError>)
    requires WellShaped(t, acc)
    ensures r.Ok? ==> WellShaped(t, r.value)
    ensures r.Ok? ==> r.value.positionals == acc.positionals + Positionals(rest)
    ensures r.Err? ==> !r.error.MalformedSpec?
    decreases |rest|
  {
    if rest == [] then Ok(acc)
    else
      match ParseToken(t, rest[0], if |rest| > 1 then Some(rest[1]) else None, acc, co)
      case Err(e) => Err(e)
      case Ok(a) => ParseFrom(t, rest[1..], a, co)
  }

  const Empty: Parsed := Parsed([], map[])

  /** What `new CliParser(argv).parse(spec)` returns or throws. */
  function ParseArgv(argv: seq<string>, spec: Spec, co: Coercions): (r: Result<Parsed, ParseError>)
    ensures r == Err(MalformedSpec) <==> !ValidKeys(spec)
    ensures r.Ok? ==> r.value.positionals == Positionals(argv)
    ensures r.Ok? ==> WellShaped(BuildTables(spec), r.value)
  {
    if !ValidKeys(spec) then Err(MalformedSpec)
    else ParseFrom(BuildTables(spec), argv, Empty, co)
  }

  /** The parser object: the argument vector is fixed when it is created. */
  class CliParser {
    const argv: seq<string>

    constructor (argv: seq<string>)
      ensures this.argv == argv
    {
      this.argv := argv;
    }

    /** `validateSpec`: every key must start with '-'. */
    method ValidateSpec(spec: Spec) returns (r: Result<bool, ParseError>)
      ensures r.Ok? <==> ValidKeys(spec)
      ensures r.Ok? ==> r.value
      ensures r.Err? ==> r.error == MalformedSpec
    {
      var k := 0;
      while k < |spec|
        invariant 0 <= k <= |spec|
        invariant forall m :: 0 <= m < k ==> StartsWith(spec[m].0, "-")
      {
        if !StartsWith(spec[k].0, "-") {
          return Err(MalformedSpec);
        }
        k := k + 1;
      }
      return Ok(true);
    }

    /** The token after `argv[i]`, if any. */
    function Next(i: nat): Option<string>
      requires i < |argv|
    {
      if i + 1 < |argv| then Some(argv[i + 1]) else None
    }

    /** `parse` */
    method Parse(spec: Spec, co: Coercions) returns (r: Result<Parsed, ParseError>)
      ensures r == ParseArgv(argv, spec, co)
    {
      var valid := ValidateSpec(spec);
      if valid.Err? {
        return Err(valid.error);
      }
      var t := IndexSpec(spec);

      var parsed := Empty;
      var i := 0;
      while i < |argv|
        invariant 0 <= i <= |argv|
        invariant WellShaped(t, parsed)
        invariant ParseFrom(t, argv, Empty, co) == ParseFrom(t, argv[i..], parsed, co)
      {
        assert argv[i..][0] == argv[i] && argv[i..][1..] == argv[i + 1..];
        var step := ParseTokenAt(t, i, parsed, co);
        if step.Err? {
          return Err(step.error);
        }
        parsed := step.value;
        i := i + 1;
      }
      assert argv[i..] == [];
      return Ok(parsed);
    }

    /** The alias and handler maps (parser.ts:91-102). */
    static method IndexSpec(spec: Spec) returns (t: Tables)
      ensures t == BuildTables(spec)
    {
      var aliases: map<string, string> := map[];
      var handlers: map<string, SpecValue> := map[];
      var n := 0;
      while n < |spec|
        invariant 0 <= n <= |spec|
        invariant Tables(aliases, handlers) == BuildTables(spec[..n])
      {
        var (name, value) := spec[n];
        assert spec[..n + 1][..n] == spec[..n];
        if IsCliSpecKey(value) {
          aliases := aliases[name := value.s];
        } else {
          handlers := handlers[name := value];
        }
        n := n + 1;
      }
      assert spec[..|spec|] == spec;
      t := Tables(aliases, handlers);
    }

    /** One pass of the outer `forEach` (parser.ts:103-175). */
    method ParseTokenAt(t: Tables, i: nat, parsed: Parsed, co: Coercions) returns (r: Result<Parsed, ParseError>)
      requires i < |argv|
      requires WellShaped(t, parsed)
      ensures r == ParseToken(t, argv[i], Next(i), parsed, co)
    {
      var wholeArg := argv[i];
      if |wholeArg| < 2 || !StartsWith(wholeArg, "-") {
        return Ok(parsed.(positionals := parsed.positionals + [wholeArg]));
      }

      var flags := SeparateCliArgs(wholeArg);
      var acc := parsed;
      var j := 0;
      while j < |flags|
        invariant 0 <= j <= |flags|
        invariant WellShaped(t, acc)
        invariant ParseGroup(t, flags, 0, Next(i), parsed, co) == ParseGroup(t, flags, j, Next(i), acc, co)
      {
        var step := ParseFlagAt(t, flags[j], j, |flags|, i, acc, co);
        if step.Err? {
          return Err(step.error);
        }
        acc := step.value;
        j := j + 1;
      }
      return Ok(acc);
    }

    /** One pass of the inner `forEach` (parser.ts:111-174). */
    method ParseFlagAt(t: Tables, flag: string, j: nat, count: nat, i: nat, acc: Parsed, co: Coercions)
      returns (r: Result<Parsed, ParseError>)
      requires i < |argv|
      requires WellShaped(t, acc)
      ensures r == ParseFlag(t, flag, j, count, Next(i), acc, co)
    {
      var (argName, argValue) := SeparateCliArgKeyValue(flag);
      var key := if argName in t.aliases then t.aliases[argName] else argName;
      var isCliFlag := if key in t.handlers then IsBoolean(t.handlers[key]) else argValue.None?;

      if !isCliFlag && j + 1 < count {
        return Err(FollowedByShortArgument(argName));
      }

      var value: RawValue;
      if isCliFlag {
        value := Text("true");
      } else if argValue.None? {
        if |argv| < i + 2
           || (|argv[i + 1]| > 1 && StartsWith(argv[i + 1], "-")
               && !(IsNumericLiteral(argv[i + 1]) && key in t.handlers && IsNumeric(t.handlers[key])))
        {
          return Err(RequiresArgument(argName, key));
        }
        value := Text(argv[i + 1]);
      } else {
        value := argValue.value;
      }

      var prev := if key in acc.values then Some(acc.values[key]) else None;
      var stored := Invoke(t, key, value, prev, co);
      if stored.Err? {
        return Err(stored.error);
      }
      return Ok(acc.(values := acc.values[key := stored.value]));
    }
  }
}
