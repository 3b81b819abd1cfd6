/** `validate_config`: the structural comparison of a parsed configuration
    against a parsed template, under the `strict` and `ignore_missing` flags. */
module Validator {
  import opened Wrappers
  import opened Tree
  import opened Report

  /** The two command-line flags that steer the comparison. */
  datatype Policy = Policy(strict: bool, ignoreMissing: bool)

  /** The extra-key pass runs only when neither flag is set. */
  predicate ReportsExtraKeys(p: Policy)
  {
    !p.strict && !p.ignoreMissing
  }

  /** Everything one call reports for a configuration mapping against a
      template mapping, in emission order: the findings of each template key in
      template order, then the extra-key warnings in configuration order. */
  function Findings(config: Value, template: Value, p: Policy, path: seq<string>): (r: seq<Finding>)
    requires config.Map? && template.Map?
    ensures config.entries == [] ==> |r| == (if !p.strict && p.ignoreMissing then 0 else |template.entries|)
    decreases template, 1, 0
  {
    FindingsUpTo(config.entries, template, p, path, |template.entries|)
      + (if ReportsExtraKeys(p) then ExtraFindings(Keys(config.entries), template.entries, path, |config.entries|) else [])
  }

  /** The findings of the first `n` template keys. Against an empty
      configuration every one of them is a missing key. */
  function FindingsUpTo(config: seq<(string, Value)>, template: Value, p: Policy, path: seq<string>, n: nat): (r: seq<Finding>)
    requires template.Map? && n <= |template.entries|
    ensures config == [] ==> |r| == (if !p.strict && p.ignoreMissing then 0 else n)
    decreases template, 0, n
  {
    if n == 0 then []
    else
      assert template.entries[n - 1] in template.entries;
      FindingsUpTo(config, template, p, path, n - 1)
        + KeyFindings(config, template.entries[n - 1].0, template.entries[n - 1].1, p, path)
  }

  /** The findings of one template key: a missing key is reported according to
      the policy and checked no further; a nested template mapping is compared
      recursively when the configuration also holds a mapping there; any other
      template value is compared by type tag only. Only the recursive case can
      report more than one finding. */
  function KeyFindings(config: seq<(string, Value)>, key: string, expected: Value, p: Policy, path: seq<string>): (r: seq<Finding>)
    ensures |r| > 1 ==> expected.Map? && Lookup(config, key).Some? && Lookup(config, key).value.Map?
    decreases expected, 2, 0
  {
    var at := path + [key];
    match Lookup(config, key)
    case None =>
      if p.strict then [Finding(at, MissingKey, Error)]
      else if !p.ignoreMissing then [Finding(at, MissingKey, Warning)]
      else []
    case Some(actual) =>
      if expected.Map? then
        if !actual.Map? then [Finding(at, TypeMismatch(MapTag, TagOf(actual)), Error)]
        else Findings(actual, expected, p, at)
      else if TagOf(expected) != TagOf(actual) then [Finding(at, TypeMismatch(TagOf(expected), TagOf(actual)), Error)]
      else []
  }

  /** The extra-key warnings for the first `n` configuration keys against the
      template's keys, in the configuration's order. */
  function ExtraFindings(keys: seq<string>, template: seq<(string, Value)>, path: seq<string>, n: nat): (r: seq<Finding>)
    requires n <= |keys|
    ensures forall f | f in r ::
      f.kind == ExtraKey && f.severity == Warning && |f.path| == |path| + 1 && f.path[..|path|] == path
  {
    if n == 0 then []
    else
      var key := keys[n - 1];
      assert (path + [key])[..|path|] == path;
      ExtraFindings(keys, template, path, n - 1)
        + (if key in Keys(template) then [] else [Finding(path + [key], ExtraKey, Warning)])
  }

  /** Validates `config` against `template` as `validate_config` does: returns
      the verdict and the log records in the order they are emitted. `path` is
      the key path of the mapping being compared; the top-level call passes []. */
  method ValidateConfig(config: Value, template: Value, p: Policy, path: seq<string>)
    returns (valid: bool, findings: seq<Finding>)
    requires config.Map? && template.Map?
    ensures findings == Findings(config, template, p, path)
    ensures valid == NoErrors(findings)
    decreases template
  {
    valid := true;
    findings := [];
    var i := 0;
    while i < |template.entries|
      invariant 0 <= i <= |template.entries|
      invariant findings == FindingsUpTo(config.entries, template, p, path, i)
      invariant valid == NoErrors(findings)
    {
      var key, expected := template.entries[i].0, template.entries[i].1;
      assert template.entries[i] in template.entries;
      ghost var before := findings;
      var found := Lookup(config.entries, key);
      if found.None? {
        if p.strict {
          findings := findings + [Finding(path + [key], MissingKey, Error)];
          valid := false;
        } else if !p.ignoreMissing {
          findings := findings + [Finding(path + [key], MissingKey, Warning)];
        }
      } else {
        var actual := found.value;
        if expected.Map? {
          if !actual.Map? {
            findings := findings + [Finding(path + [key], TypeMismatch(MapTag, TagOf(actual)), Error)];
            valid := false;
          } else {
            var nestedValid, nested := ValidateConfig(actual, expected, p, path + [key]);
            findings := findings + nested;
            if !nestedValid {
              valid := false;
            }
          }
        } else if TagOf(expected) != TagOf(actual) {
          findings := findings + [Finding(path + [key], TypeMismatch(TagOf(expected), TagOf(actual)), Error)];
          valid := false;
        }
      }
      assert findings == before + KeyFindings(config.entries, key, expected, p, path);
      NoErrorsAppend(before, KeyFindings(config.entries, key, expected, p, path));
      i := i + 1;
    }

    assert findings == FindingsUpTo(config.entries, template, p, path, |template.entries|);
    if !p.strict && !p.ignoreMissing {
      var extra := ExtraKeyPass(Keys(config.entries), template.entries, path);
      NoErrorsAppend(findings, extra);
      findings := findings + extra;
    }
  }

  /** The extra-key pass: a warning for each configuration key the template
      lacks, in the configuration's order. */
  method ExtraKeyPass(keys: seq<string>, template: seq<(string, Value)>, path: seq<string>)
    returns (extra: seq<Finding>)
    ensures extra == ExtraFindings(keys, template, path, |keys|)
  {
    extra := [];
    var j := 0;
    while j < |keys|
      invariant 0 <= j <= |keys|
      invariant extra == ExtraFindings(keys, template, path, j)
    {
      var key := keys[j];
      if key !in Keys(template) {
        extra := extra + [Finding(path + [key], ExtraKey, Warning)];
      }
      j := j + 1;
    }
  }
}
