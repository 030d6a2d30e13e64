/** The esbuild plugin of packages/esw/src/plugins/external-mark.ts: it marks
    every import path that names one of the package's dependencies (the name
    itself, or a path below it) as external, so that the bundler leaves it
    out of the bundle. */
module ExternalMark {
  import opened Wrappers
  import opened Strings

  const PluginName: string := "esbuild-plugin-external-mark"

  /** What `onResolve` returns for a matched path. */
  datatype ResolveResult = ResolveResult(path: string, external: bool)

  /** The plugin after `setup`: the rules of its resolver, when one is registered. */
  datatype Plugin = Plugin(name: string, resolver: Option<seq<string>>)

  predicate IsSeparator(c: char) {
    c == '/' || c == '\\'
  }

  /** What a rule is meant to match: the name itself, or the name followed
      by a path separator and anything. */
  predicate RuleMatches(name: string, path: string) {
    StartsWith(path, name) && (|path| == |name| || IsSeparator(path[|name|]))
  }

  /** What the rule `new RegExp(`^${name}(?:$|\/|\\)`)` matches as written:
      the name is not escaped, so each `.` in it matches any character but a
      line terminator. (Names holding other pattern characters are not part
      of this model.) */
  predicate RuleMatchesAsWritten(name: string, path: string) {
    |name| <= |path|
    && (forall i :: 0 <= i < |name| ==>
          if name[i] == '.' then !IsLineTerminator(path[i]) else path[i] == name[i])
    && (|path| == |name| || IsSeparator(path[|name|]))
  }

  predicate AnyRuleMatches(deps: seq<string>, path: string) {
    exists i :: 0 <= i < |deps| && RuleMatches(deps[i], path)
  }

  /** `setup`: no resolver at all for an empty dependency list, else one rule per name. */
  function Setup(deps: seq<string>): (p: Plugin)
    ensures p.name == PluginName
    ensures p.resolver.None? <==> deps == []
    ensures p.resolver.Some? ==> p.resolver.value == deps
  {
    Plugin(PluginName, if |deps| < 1 then None else Some(deps))
  }

  /** The `onResolve` callback: a path some rule matches comes back unchanged
      and external; any other path is left to the bundler. */
  function OnResolve(rules: seq<string>, path: string): (r: Option<ResolveResult>)
    ensures r.Some? <==> AnyRuleMatches(rules, path)
    ensures r.Some? ==> r.value == ResolveResult(path, true)
  {
    if Matched(rules, path) then Some(ResolveResult(path, true)) else None
  }

  /** `rules.some(rule => rule.test(path))` */
  function Matched(rules: seq<string>, path: string): (b: bool)
    ensures b <==> AnyRuleMatches(rules, path)
  {
    if rules == [] then false
    else
      AnyRuleMatchesCons(rules, path);
      RuleMatches(rules[0], path) || Matched(rules[1..], path)
  }

  lemma AnyRuleMatchesCons(rules: seq<string>, path: string)
    requires rules != []
    ensures AnyRuleMatches(rules, path) <==> RuleMatches(rules[0], path) || AnyRuleMatches(rules[1..], path)
  {
    if AnyRuleMatches(rules[1..], path) {
      var i :| 0 <= i < |rules[1..]| && RuleMatches(rules[1..][i], path);
      assert RuleMatches(rules[i + 1], path);
    }
    if AnyRuleMatches(rules, path) && !RuleMatches(rules[0], path) {
      var i :| 0 <= i < |rules| && RuleMatches(rules[i], path);
      assert rules[1..][i - 1] == rules[i];
    }
  }

  /** The `onResolve` callback as written, with the unescaped rules. */
  function OnResolveAsWritten(rules: seq<string>, path: string): (r: Option<ResolveResult>)
    ensures r.Some? <==> exists i :: 0 <= i < |rules| && RuleMatchesAsWritten(rules[i], path)
    ensures r.Some? ==> r.value == ResolveResult(path, true)
  {
    if exists i :: 0 <= i < |rules| && RuleMatchesAsWritten(rules[i], path)
    then Some(ResolveResult(path, true)) else None
  }

  /** A name matches exactly itself and the paths below it. */
  lemma RuleMatchesIsNameOrBelow(name: string, path: string)
    ensures RuleMatches(name, path) <==>
      path == name || StartsWith(path, name + "/") || StartsWith(path, name + "\\")
  {
    if StartsWith(path, name + "/") || StartsWith(path, name + "\\") {
      assert path[..|name|] == path[..|name| + 1][..|name|];
    }
    if RuleMatches(name, path) && |path| > |name| {
      assert path[..|name| + 1] == path[..|name|] + [path[|name|]];
    }
  }

  /** Without a `.` in the name the rule as written is the intended one. */
  lemma AsWrittenAgreesWithoutDots(name: string, path: string)
    requires '.' !in name
    ensures RuleMatchesAsWritten(name, path) <==> RuleMatches(name, path)
  {
    if RuleMatchesAsWritten(name, path) {
      assert path[..|name|] == name;
    }
    if RuleMatches(name, path) {
      forall i | 0 <= i < |name|
        ensures path[i] == name[i]
      {
        assert path[..|name|][i] == path[i];
      }
    }
  }

  /** When no dependency name holds a `.`, the resolver as written and the
      intended one mark the same paths. */
  lemma OnResolveAgreesWithoutDots(rules: seq<string>, path: string)
    requires forall i :: 0 <= i < |rules| ==> '.' !in rules[i]
    ensures OnResolveAsWritten(rules, path) == OnResolve(rules, path)
  {
    forall i | 0 <= i < |rules|
      ensures RuleMatchesAsWritten(rules[i], path) <==> RuleMatches(rules[i], path)
    {
      AsWrittenAgreesWithoutDots(rules[i], path);
    }
  }

  /** With the unescaped pattern, a dependency named `lodash.get` also marks
      the unrelated package `lodash-get` as external. */
  lemma DotInNameOverMatches()
    ensures RuleMatchesAsWritten("lodash.get", "lodash-get")
    ensures !RuleMatches("lodash.get", "lodash-get")
    ensures OnResolveAsWritten(["lodash.get"], "lodash-get") == Some(ResolveResult("lodash-get", true))
    ensures OnResolve(["lodash.get"], "lodash-get") == None
  {
    assert "lodash-get"[..10] != "lodash.get" by {
      assert "lodash-get"[..10][6] != "lodash.get"[6];
    }
    assert RuleMatchesAsWritten(["lodash.get"][0], "lodash-get");
  }

  /** A sub-path import is marked external along with its package. */
  lemma SubpathMatches()
    ensures OnResolve(["react", "rxjs"], "rxjs/operators") == Some(ResolveResult("rxjs/operators", true))
  {
    RuleMatchesIsNameOrBelow("rxjs", "rxjs/operators");
    assert StartsWith("rxjs/operators", "rxjs" + "/");
    assert RuleMatches(["react", "rxjs"][1], "rxjs/operators");
  }

  /** A package whose name merely starts with a dependency's name is not marked. */
  lemma LongerNameDoesNotMatch()
    ensures OnResolve(["react"], "react-dom") == None
  {
    assert "react-dom"[5] == '-';
  }

  /** A dependency's name in the middle of a path does not count. */
  lemma NameMidPathDoesNotMatch()
    ensures OnResolve(["react"], "./node_modules/react") == None
  {
    assert "./node_modules/react"[..5] != "react" by {
      assert "./node_modules/react"[0] != "react"[0];
    }
  }
}
