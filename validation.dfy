/** The environment check (`src/lib/utils/validation.ts`); the environment is a map from names to values. */
module Validation {
  import opened Strings
  import opened Constants

  datatype ValidationResult = ValidationResult(isValid: bool, missing: seq<string>, hasPlaceholders: bool)

  /** `!value`: the variable is unset or empty. */
  predicate Unset(env: map<string, string>, name: string) {
    name !in env || env[name] == []
  }

  /** The required names that are unset or empty, in the order they are required. */
  function Missing(env: map<string, string>, names: seq<string>): (r: seq<string>)
    ensures forall x :: x in r <==> x in names && Unset(env, x)
    ensures |r| <= |names|
  {
    if names == [] then []
    else if Unset(env, names[0]) then [names[0]] + Missing(env, names[1..])
    else Missing(env, names[1..])
  }

  /** Some required variable is set and its value contains `placeholder`. */
  predicate AnyPlaceholder(env: map<string, string>, names: seq<string>) {
    exists i :: 0 <= i < |names| && !Unset(env, names[i]) && IsSubstring("placeholder", env[names[i]])
  }

  /** `missing` keeps the order of the list: checking `a` then `b` reports `a`'s names first. */
  lemma {:induction false} MissingAppend(env: map<string, string>, a: seq<string>, b: seq<string>)
    ensures Missing(env, a + b) == Missing(env, a) + Missing(env, b)
  {
    if a == [] {
      assert a + b == b;
    } else {
      assert (a + b)[1..] == a[1..] + b;
      MissingAppend(env, a[1..], b);
    }
  }

  lemma AnyPlaceholderAppend(env: map<string, string>, names: seq<string>, name: string)
    ensures AnyPlaceholder(env, names + [name]) <==>
      AnyPlaceholder(env, names) || (!Unset(env, name) && IsSubstring("placeholder", env[name]))
  {
    var all := names + [name];
    assert all[|names|] == name;
    if AnyPlaceholder(env, all) {
      var i :| 0 <= i < |all| && !Unset(env, all[i]) && IsSubstring("placeholder", env[all[i]]);
      if i < |names| {
        assert all[i] == names[i];
      }
    }
    if AnyPlaceholder(env, names) {
      var i :| 0 <= i < |names| && !Unset(env, names[i]) && IsSubstring("placeholder", env[names[i]]);
      assert all[i] == names[i];
    }
  }

  /** Nothing is missing exactly when every required variable is set. */
  lemma MissingEmptyIff(env: map<string, string>, names: seq<string>)
    ensures Missing(env, names) == [] <==> forall i :: 0 <= i < |names| ==> !Unset(env, names[i])
  {
    var m := Missing(env, names);
    if m != [] {
      assert m[0] in m;
    }
    forall i | 0 <= i < |names| && Unset(env, names[i]) ensures m != [] {
      assert names[i] in names;
      assert names[i] in m;
    }
  }

  /**
   * One iteration of the check: after looking at `names[i]` the reported
   * names and the placeholder flag describe the first `i + 1` names.
   */
  lemma ValidateStep(env: map<string, string>, names: seq<string>, i: nat,
                     missing0: seq<string>, found0: bool, missing: seq<string>, found: bool)
    requires i < |names|
    requires missing0 == Missing(env, names[..i]) && (found0 <==> AnyPlaceholder(env, names[..i]))
    requires missing == missing0 + (if Unset(env, names[i]) then [names[i]] else [])
    requires found <==> found0 || (!Unset(env, names[i]) && IsSubstring("placeholder", env[names[i]]))
    ensures missing == Missing(env, names[..i + 1]) && (found <==> AnyPlaceholder(env, names[..i + 1]))
  {
    var name := names[i];
    assert names[..i + 1] == names[..i] + [name];
    MissingAppend(env, names[..i], [name]);
    AnyPlaceholderAppend(env, names[..i], name);
  }

  /** `validateEnvironmentVariables(requiredVars)`. */
  method ValidateEnvironmentVariables(env: map<string, string>, requiredVars: seq<string>) returns (r: ValidationResult)
    ensures r.missing == Missing(env, requiredVars)
    ensures r.isValid <==> forall i :: 0 <= i < |requiredVars| ==> !Unset(env, requiredVars[i])
    ensures r.hasPlaceholders <==> AnyPlaceholder(env, requiredVars)
    ensures requiredVars == [] ==> r == ValidationResult(true, [], false)
  {
    var missing: seq<string> := [];
    var hasPlaceholders := false;
    for i := 0 to |requiredVars|
      invariant missing == Missing(env, requiredVars[..i])
      invariant hasPlaceholders <==> AnyPlaceholder(env, requiredVars[..i])
    {
      ghost var missing0, found0 := missing, hasPlaceholders;
      var name := requiredVars[i];
      if Unset(env, name) {
        missing := missing + [name];
      } else if IsSubstring("placeholder", env[name]) {
        hasPlaceholders := true;
      }
      ValidateStep(env, requiredVars, i, missing0, found0, missing, hasPlaceholders);
    }
    assert requiredVars[..|requiredVars|] == requiredVars;
    MissingEmptyIff(env, requiredVars);
    r := ValidationResult(|missing| == 0, missing, hasPlaceholders);
  }

  /** The default call checks the three service variables. */
  method ValidateDefault(env: map<string, string>) returns (r: ValidationResult)
    ensures r.missing == Missing(env, RequiredEnvVars)
    ensures r.isValid <==> !Unset(env, "PINECONE_API_KEY") && !Unset(env, "PINECONE_INDEX_NAME") && !Unset(env, "GOOGLE_API_KEY")
  {
    r := ValidateEnvironmentVariables(env, RequiredEnvVars);
  }
}
