/** What `validate_config` promises, proved about its specification
    `Validator.Findings`: how each finding is classified, how missing keys,
    extra keys and nested mappings are reported, that values are never
    compared, and how the two flags interact. */
module Properties {
  import opened Wrappers
  import opened Tree
  import opened Report
  import opened Validator

  /** The severity a missing key is reported with under the policy: an error in
      strict mode, a warning when neither flag is set, and not at all when only
      `ignore_missing` is set. */
  predicate ReportsMissingAs(p: Policy, s: Severity)
  {
    if p.strict then s == Error else !p.ignoreMissing && s == Warning
  }

  /** Every finding of a comparison at `path` names a key below `path`, and its
      severity follows from its kind and the policy: a missing key is an error
      in strict mode, a warning when neither flag is set and never reported
      otherwise; an extra key is a warning, reported only when neither flag is
      set; a type mismatch is an error between two different type tags. */
  predicate Classified(f: Finding, p: Policy, path: seq<string>)
  {
    && path < f.path
    && match f.kind
       case MissingKey => ReportsMissingAs(p, f.severity)
       case ExtraKey => ReportsExtraKeys(p) && f.severity == Warning
       case TypeMismatch(expected, actual) => expected != actual && f.severity == Error
  }

  /** Findings of a template key lie below that key, so the extra-key warnings
      among them are nested at least one level below `path`. */
  predicate ClassifiedBelowKey(f: Finding, p: Policy, path: seq<string>)
  {
    Classified(f, p, path) && (f.kind == ExtraKey ==> |f.path| > |path| + 1)
  }

  lemma {:induction false} FindingsClassified(config: Value, template: Value, p: Policy, path: seq<string>)
    requires config.Map? && template.Map?
    ensures forall f | f in Findings(config, template, p, path) :: Classified(f, p, path)
    decreases template, 1, 0
  {
    FindingsUpToClassified(config.entries, template, p, path, |template.entries|);
  }

  lemma {:induction false} FindingsUpToClassified(config: seq<(string, Value)>, template: Value, p: Policy, path: seq<string>, n: nat)
    requires template.Map? && n <= |template.entries|
    ensures forall f | f in FindingsUpTo(config, template, p, path, n) :: ClassifiedBelowKey(f, p, path)
    decreases template, 0, n
  {
    if n > 0 {
      assert template.entries[n - 1] in template.entries;
      FindingsUpToClassified(config, template, p, path, n - 1);
      KeyFindingsClassified(config, template.entries[n - 1].0, template.entries[n - 1].1, p, path);
    }
  }

  lemma {:induction false} KeyFindingsClassified(config: seq<(string, Value)>, key: string, expected: Value, p: Policy, path: seq<string>)
    ensures forall f | f in KeyFindings(config, key, expected, p, path) :: ClassifiedBelowKey(f, p, path)
    decreases expected, 2, 0
  {
    var at := path + [key];
    match Lookup(config, key)
    case None =>
    case Some(actual) =>
      if expected.Map? && actual.Map? {
        FindingsClassified(actual, expected, p, at);
        forall f | f in Findings(actual, expected, p, at)
          ensures ClassifiedBelowKey(f, p, path)
        {
          assert at < f.path;
        }
      }
  }

  /** Strict mode reports errors only: no warning of any kind is emitted. */
  lemma StrictReportsOnlyErrors(config: Value, template: Value, p: Policy, path: seq<string>)
    requires config.Map? && template.Map?
    requires p.strict
    ensures forall f | f in Findings(config, template, p, path) :: f.severity == Error
  {
    FindingsClassified(config, template, p, path);
  }

  /** With `ignore_missing` set and `strict` unset, missing keys and extra keys
      are never reported, at any depth: only type mismatches remain. */
  lemma IgnoreMissingReportsOnlyMismatches(config: Value, template: Value, p: Policy, path: seq<string>)
    requires config.Map? && template.Map?
    requires !p.strict && p.ignoreMissing
    ensures forall f | f in Findings(config, template, p, path) :: f.kind.TypeMismatch? && f.severity == Error
  {
    FindingsClassified(config, template, p, path);
  }

  /** The verdict is false exactly when a strict-mode missing key or a type
      mismatch was reported somewhere in the tree. */
  lemma RejectedIffStrictMissingOrMismatch(config: Value, template: Value, p: Policy, path: seq<string>)
    requires config.Map? && template.Map?
    ensures !NoErrors(Findings(config, template, p, path)) <==>
      exists f | f in Findings(config, template, p, path) :: f.kind.TypeMismatch? || (f.kind.MissingKey? && p.strict)
  {
    FindingsClassified(config, template, p, path);
  }

  // ---------------------------------------------------------------------------
  // Where the findings of one template key end up

  lemma {:induction false} FindingsUpToIncludesKey(config: seq<(string, Value)>, template: Value, p: Policy, path: seq<string>, n: nat, k: nat)
    requires template.Map? && k < n <= |template.entries|
    ensures forall f | f in KeyFindings(config, template.entries[k].0, template.entries[k].1, p, path) ::
      f in FindingsUpTo(config, template, p, path, n)
    decreases n
  {
    if k < n - 1 {
      FindingsUpToIncludesKey(config, template, p, path, n - 1, k);
    }
  }

  /** Everything reported for the `k`-th template key is reported by the call. */
  lemma KeyFindingsIncluded(config: Value, template: Value, p: Policy, path: seq<string>, k: nat)
    requires config.Map? && template.Map? && k < |template.entries|
    ensures forall f | f in KeyFindings(config.entries, template.entries[k].0, template.entries[k].1, p, path) ::
      f in Findings(config, template, p, path)
  {
    FindingsUpToIncludesKey(config.entries, template, p, path, |template.entries|, k);
  }

  /** In strict mode a template key absent from the configuration is an error
      at that key, and the configuration is rejected whatever `ignore_missing`
      says; nothing else is reported for that key. */
  lemma StrictMissingKeyRejects(config: Value, template: Value, p: Policy, path: seq<string>, k: nat)
    requires config.Map? && template.Map? && k < |template.entries|
    requires p.strict && template.entries[k].0 !in Keys(config.entries)
    ensures KeyFindings(config.entries, template.entries[k].0, template.entries[k].1, p, path)
      == [Finding(path + [template.entries[k].0], MissingKey, Error)]
    ensures Finding(path + [template.entries[k].0], MissingKey, Error) in Findings(config, template, p, path)
    ensures !NoErrors(Findings(config, template, p, path))
  {
    LookupFindsKey(config.entries, template.entries[k].0);
    KeyFindingsIncluded(config, template, p, path, k);
  }

  /** With neither flag set, a template key absent from the configuration is a
      warning at that key and nothing more. */
  lemma DefaultMissingKeyWarns(config: Value, template: Value, p: Policy, path: seq<string>, k: nat)
    requires config.Map? && template.Map? && k < |template.entries|
    requires !p.strict && !p.ignoreMissing && template.entries[k].0 !in Keys(config.entries)
    ensures KeyFindings(config.entries, template.entries[k].0, template.entries[k].1, p, path)
      == [Finding(path + [template.entries[k].0], MissingKey, Warning)]
    ensures Finding(path + [template.entries[k].0], MissingKey, Warning) in Findings(config, template, p, path)
  {
    LookupFindsKey(config.entries, template.entries[k].0);
    KeyFindingsIncluded(config, template, p, path, k);
  }

  /** A template mapping met by a configuration value that is not a mapping is
      one type-mismatch error at that key, with no recursion below it, and the
      configuration is rejected. */
  lemma MapMismatchRejects(config: Value, template: Value, p: Policy, path: seq<string>, k: nat)
    requires config.Map? && template.Map? && k < |template.entries|
    requires template.entries[k].1.Map?
    requires Lookup(config.entries, template.entries[k].0).Some?
    requires !Lookup(config.entries, template.entries[k].0).value.Map?
    ensures var actual := Lookup(config.entries, template.entries[k].0).value;
      && KeyFindings(config.entries, template.entries[k].0, template.entries[k].1, p, path)
         == [Finding(path + [template.entries[k].0], TypeMismatch(MapTag, TagOf(actual)), Error)]
      && Finding(path + [template.entries[k].0], TypeMismatch(MapTag, TagOf(actual)), Error)
         in Findings(config, template, p, path)
    ensures !NoErrors(Findings(config, template, p, path))
  {
    KeyFindingsIncluded(config, template, p, path, k);
  }

  /** When template and configuration both hold a mapping at a key, everything
      the nested comparison reports is reported by the parent, under the key's
      path, and a rejected nested mapping rejects the parent. */
  lemma NestedFindingsPropagate(config: Value, template: Value, p: Policy, path: seq<string>, k: nat)
    requires config.Map? && template.Map? && k < |template.entries|
    requires template.entries[k].1.Map?
    requires Lookup(config.entries, template.entries[k].0).Some?
    requires Lookup(config.entries, template.entries[k].0).value.Map?
    ensures var nested := Findings(Lookup(config.entries, template.entries[k].0).value, template.entries[k].1, p, path + [template.entries[k].0]);
      && (forall f | f in nested :: f in Findings(config, template, p, path))
      && (!NoErrors(nested) ==> !NoErrors(Findings(config, template, p, path)))
  {
    KeyFindingsIncluded(config, template, p, path, k);
  }

  /** A template value other than a mapping met by a configuration value of
      another type is one type-mismatch error at that key, naming both type
      tags, and the configuration is rejected. */
  lemma ScalarMismatchRejects(config: Value, template: Value, p: Policy, path: seq<string>, k: nat)
    requires config.Map? && template.Map? && k < |template.entries|
    requires !template.entries[k].1.Map?
    requires Lookup(config.entries, template.entries[k].0).Some?
    requires TagOf(template.entries[k].1) != TagOf(Lookup(config.entries, template.entries[k].0).value)
    ensures var expected, actual := template.entries[k].1, Lookup(config.entries, template.entries[k].0).value;
      && KeyFindings(config.entries, template.entries[k].0, expected, p, path)
         == [Finding(path + [template.entries[k].0], TypeMismatch(TagOf(expected), TagOf(actual)), Error)]
      && Finding(path + [template.entries[k].0], TypeMismatch(TagOf(expected), TagOf(actual)), Error)
         in Findings(config, template, p, path)
    ensures !NoErrors(Findings(config, template, p, path))
  {
    KeyFindingsIncluded(config, template, p, path, k);
  }

  /** A template value other than a mapping met by a configuration value of the
      same type tag reports nothing for that key: the values are not compared. */
  lemma ScalarTagMatchSilent(config: seq<(string, Value)>, key: string, expected: Value, p: Policy, path: seq<string>)
    requires !expected.Map?
    requires Lookup(config, key).Some? && TagOf(Lookup(config, key).value) == TagOf(expected)
    ensures KeyFindings(config, key, expected, p, path) == []
  {
  }

  // ---------------------------------------------------------------------------
  // Missing keys, in both directions

  /** One template key yields a missing-key record at `path + [k]` exactly when
      it is `k`, the configuration lacks `k`, and the policy reports missing
      keys with that severity. A nested comparison's records lie deeper. */
  lemma KeyMissingRecord(config: seq<(string, Value)>, key: string, expected: Value, p: Policy, path: seq<string>, k: string, s: Severity)
    ensures Finding(path + [k], MissingKey, s) in KeyFindings(config, key, expected, p, path)
      <==> key == k && Lookup(config, k).None? && ReportsMissingAs(p, s)
  {
    assert (path + [k])[|path|] == k && (path + [key])[|path|] == key;
    match Lookup(config, key)
    case None =>
    case Some(actual) =>
      if expected.Map? && actual.Map? {
        FindingsClassified(actual, expected, p, path + [key]);
      }
  }

  /** The first `n` template keys yield a missing-key record at `path + [k]`
      exactly when one of them is `k`, the configuration lacks `k`, and the
      policy reports missing keys with that severity. */
  lemma {:induction false} MissingKeyReportedUpTo(config: seq<(string, Value)>, template: Value, p: Policy, path: seq<string>, n: nat, k: string, s: Severity)
    requires template.Map? && n <= |template.entries|
    ensures Finding(path + [k], MissingKey, s) in FindingsUpTo(config, template, p, path, n)
      <==> (exists i | 0 <= i < n :: template.entries[i].0 == k) && Lookup(config, k).None? && ReportsMissingAs(p, s)
    decreases n
  {
    if n > 0 {
      var key, expected := template.entries[n - 1].0, template.entries[n - 1].1;
      var before, step := FindingsUpTo(config, template, p, path, n - 1), KeyFindings(config, key, expected, p, path);
      assert FindingsUpTo(config, template, p, path, n) == before + step;
      var record := Finding(path + [k], MissingKey, s);
      assert record in before
        <==> (exists i | 0 <= i < n - 1 :: template.entries[i].0 == k) && Lookup(config, k).None? && ReportsMissingAs(p, s) by {
        MissingKeyReportedUpTo(config, template, p, path, n - 1, k, s);
      }
      assert record in step <==> key == k && Lookup(config, k).None? && ReportsMissingAs(p, s) by {
        KeyMissingRecord(config, key, expected, p, path, k, s);
      }
      if exists i | 0 <= i < n :: template.entries[i].0 == k {
        var i :| 0 <= i < n && template.entries[i].0 == k;
        assert i < n - 1 || key == k;
      }
    }
  }

  /** A call reports a missing key at `path + [k]` with severity `s` exactly
      when `k` is a template key, the configuration lacks it, and the policy
      reports missing keys with severity `s`. */
  lemma MissingKeyReported(config: Value, template: Value, p: Policy, path: seq<string>, k: string, s: Severity)
    requires config.Map? && template.Map?
    ensures Finding(path + [k], MissingKey, s) in Findings(config, template, p, path)
      <==> k in Keys(template.entries) && k !in Keys(config.entries) && ReportsMissingAs(p, s)
  {
    var n := |template.entries|;
    MissingKeyReportedUpTo(config.entries, template, p, path, n, k, s);
    LookupFindsKey(config.entries, k);
    if k in Keys(template.entries) {
      var i :| 0 <= i < n && Keys(template.entries)[i] == k;
      assert template.entries[i].0 == k;
    }
    if exists i | 0 <= i < n :: template.entries[i].0 == k {
      var i :| 0 <= i < n && template.entries[i].0 == k;
      assert Keys(template.entries)[i] == k;
    }
  }

  /** Against an empty configuration every record is a missing-key record one
      level below `path`, with the severity the policy gives missing keys. */
  lemma {:induction false} EmptyConfigAllMissingUpTo(template: Value, p: Policy, path: seq<string>, n: nat)
    requires template.Map? && n <= |template.entries|
    ensures forall f | f in FindingsUpTo([], template, p, path, n) ::
      f.kind == MissingKey && ReportsMissingAs(p, f.severity) && |f.path| == |path| + 1
    decreases n
  {
    if n > 0 {
      var key, expected := template.entries[n - 1].0, template.entries[n - 1].1;
      assert FindingsUpTo([], template, p, path, n)
        == FindingsUpTo([], template, p, path, n - 1) + KeyFindings([], key, expected, p, path);
      EmptyConfigAllMissingUpTo(template, p, path, n - 1);
    }
  }

  /** An empty configuration gets one missing-key record per template key, in
      template order, each with the severity the policy gives missing keys;
      nothing at all when only `ignore_missing` is set. */
  lemma EmptyConfigAllMissing(template: Value, p: Policy, path: seq<string>)
    requires template.Map?
    ensures var r := Findings(Map([]), template, p, path);
      && |r| == (if !p.strict && p.ignoreMissing then 0 else |template.entries|)
      && forall f | f in r :: f.kind == MissingKey && ReportsMissingAs(p, f.severity) && |f.path| == |path| + 1
  {
    EmptyConfigAllMissingUpTo(template, p, path, |template.entries|);
    assert Keys([]) == [];
  }

  // ---------------------------------------------------------------------------
  // The extra-key pass

  /** Among the first `n` configuration keys, an extra-key warning names
      exactly those the template lacks. */
  lemma {:induction false} ExtraFindingsExactly(keys: seq<string>, template: seq<(string, Value)>, path: seq<string>, n: nat, k: string)
    requires n <= |keys|
    ensures Finding(path + [k], ExtraKey, Warning) in ExtraFindings(keys, template, path, n)
      <==> k in keys[..n] && k !in Keys(template)
  {
    if n > 0 {
      assert keys[..n] == keys[..n - 1] + [keys[n - 1]];
      ExtraFindingsExactly(keys, template, path, n - 1, k);
    }
  }

  /** The extra-key warnings follow the configuration's key order: the
      warnings of the first `m` keys are a prefix of those of the first `n`. */
  lemma {:induction false} ExtraFindingsInKeyOrder(keys: seq<string>, template: seq<(string, Value)>, path: seq<string>, m: nat, n: nat)
    requires m <= n <= |keys|
    ensures ExtraFindings(keys, template, path, m) <= ExtraFindings(keys, template, path, n)
    decreases n
  {
    if m < n {
      ExtraFindingsInKeyOrder(keys, template, path, m, n - 1);
    }
  }

  /** With neither flag set, the call warns at `path + [k]` about an extra key
      exactly when `k` is a configuration key the template lacks; with either
      flag set it reports no extra key at all. */
  lemma ExtraKeyReported(config: Value, template: Value, p: Policy, path: seq<string>, k: string)
    requires config.Map? && template.Map?
    ensures Finding(path + [k], ExtraKey, Warning) in Findings(config, template, p, path)
      <==> ReportsExtraKeys(p) && k in Keys(config.entries) && k !in Keys(template.entries)
  {
    FindingsUpToClassified(config.entries, template, p, path, |template.entries|);
    FindingsClassified(config, template, p, path);
    var keys := Keys(config.entries);
    assert keys[..|keys|] == keys;
    ExtraFindingsExactly(keys, template.entries, path, |keys|, k);
  }

  // ---------------------------------------------------------------------------
  // Only shapes are compared

  lemma {:induction false} ExtraFindingsNoneMissing(keys: seq<string>, template: seq<(string, Value)>, path: seq<string>, n: nat)
    requires n <= |keys|
    requires forall k | k in keys :: k in Keys(template)
    ensures ExtraFindings(keys, template, path, n) == []
  {
    if n > 0 {
      ExtraFindingsNoneMissing(keys, template, path, n - 1);
    }
  }

  /** The findings do not depend on the configuration's leaf values: two
      configurations of the same shape get the same findings. */
  lemma {:induction false} ShapeOnlyMatters(c1: Value, c2: Value, template: Value, p: Policy, path: seq<string>)
    requires c1.Map? && template.Map? && SameShape(c1, c2)
    ensures c2.Map? && Findings(c1, template, p, path) == Findings(c2, template, p, path)
    decreases template, 1, 0
  {
    ShapeOnlyMattersUpTo(c1.entries, c2.entries, template, p, path, |template.entries|);
    assert Keys(c1.entries) == Keys(c2.entries);
  }

  lemma {:induction false} ShapeOnlyMattersUpTo(e1: seq<(string, Value)>, e2: seq<(string, Value)>, template: Value, p: Policy, path: seq<string>, n: nat)
    requires |e1| == |e2|
    requires forall i :: 0 <= i < |e1| ==> e1[i].0 == e2[i].0 && SameShape(e1[i].1, e2[i].1)
    requires template.Map? && n <= |template.entries|
    ensures FindingsUpTo(e1, template, p, path, n) == FindingsUpTo(e2, template, p, path, n)
    decreases template, 0, n
  {
    if n > 0 {
      assert template.entries[n - 1] in template.entries;
      var key, expected := template.entries[n - 1].0, template.entries[n - 1].1;
      assert FindingsUpTo(e1, template, p, path, n)
        == FindingsUpTo(e1, template, p, path, n - 1) + KeyFindings(e1, key, expected, p, path);
      assert FindingsUpTo(e2, template, p, path, n)
        == FindingsUpTo(e2, template, p, path, n - 1) + KeyFindings(e2, key, expected, p, path);
      assert FindingsUpTo(e1, template, p, path, n - 1) == FindingsUpTo(e2, template, p, path, n - 1) by {
        ShapeOnlyMattersUpTo(e1, e2, template, p, path, n - 1);
      }
      assert KeyFindings(e1, key, expected, p, path) == KeyFindings(e2, key, expected, p, path) by {
        ShapeOnlyMattersKey(e1, e2, key, expected, p, path);
      }
    }
  }

  lemma {:induction false} ShapeOnlyMattersKey(e1: seq<(string, Value)>, e2: seq<(string, Value)>, key: string, expected: Value, p: Policy, path: seq<string>)
    requires |e1| == |e2|
    requires forall i :: 0 <= i < |e1| ==> e1[i].0 == e2[i].0 && SameShape(e1[i].1, e2[i].1)
    ensures KeyFindings(e1, key, expected, p, path) == KeyFindings(e2, key, expected, p, path)
    decreases expected, 2, 0
  {
    LookupSameShape(e1, e2, key);
    if Lookup(e1, key).Some? {
      var a1, a2 := Lookup(e1, key).value, Lookup(e2, key).value;
      if expected.Map? && a1.Map? {
        ShapeOnlyMatters(a1, a2, expected, p, path + [key]);
      }
    }
  }

  /** A well-formed template compared against itself reports nothing. */
  lemma {:induction false} IdenticalTreesHaveNoFindings(template: Value, p: Policy, path: seq<string>)
    requires template.Map? && WellFormed(template)
    ensures Findings(template, template, p, path) == []
    decreases template, 1, 0
  {
    IdenticalTreesHaveNoFindingsUpTo(template, p, path, |template.entries|);
    ExtraFindingsNoneMissing(Keys(template.entries), template.entries, path, |template.entries|);
  }

  lemma {:induction false} IdenticalTreesHaveNoFindingsUpTo(template: Value, p: Policy, path: seq<string>, n: nat)
    requires template.Map? && WellFormed(template) && n <= |template.entries|
    ensures FindingsUpTo(template.entries, template, p, path, n) == []
    decreases template, 0, n
  {
    if n > 0 {
      assert template.entries[n - 1] in template.entries;
      var before := FindingsUpTo(template.entries, template, p, path, n - 1);
      var step := KeyFindings(template.entries, template.entries[n - 1].0, template.entries[n - 1].1, p, path);
      assert FindingsUpTo(template.entries, template, p, path, n) == before + step;
      assert before == [] by {
        IdenticalTreesHaveNoFindingsUpTo(template, p, path, n - 1);
      }
      assert step == [] by {
        IdenticalTreesHaveNoFindingsKey(template.entries, n - 1, p, path);
      }
    }
  }

  lemma {:induction false} IdenticalTreesHaveNoFindingsKey(entries: seq<(string, Value)>, i: nat, p: Policy, path: seq<string>)
    requires UniqueKeys(entries) && i < |entries| && WellFormed(entries[i].1)
    ensures KeyFindings(entries, entries[i].0, entries[i].1, p, path) == []
    decreases entries[i].1, 2, 0
  {
    var key, expected := entries[i].0, entries[i].1;
    LookupUnique(entries, i);
    if expected.Map? {
      IdenticalTreesHaveNoFindings(expected, p, path + [key]);
    }
  }

  /** A configuration with the template's shape is accepted with no finding at
      all, whatever its leaf values and whatever the policy; in particular
      `validate_config(t, t, strict, ignore_missing)` accepts every tree `t`. */
  lemma ConformingConfigAccepted(config: Value, template: Value, p: Policy, path: seq<string>)
    requires template.Map? && WellFormed(template) && SameShape(template, config)
    ensures config.Map?
    ensures Findings(config, template, p, path) == [] && NoErrors(Findings(config, template, p, path))
  {
    IdenticalTreesHaveNoFindings(template, p, path);
    ShapeOnlyMatters(template, config, template, p, path);
  }

  // ---------------------------------------------------------------------------
  // How the two flags interact

  /** Once `strict` is set, `ignore_missing` changes nothing. */
  lemma {:induction false} StrictOverridesIgnoreMissing(config: Value, template: Value, i1: bool, i2: bool, path: seq<string>)
    requires config.Map? && template.Map?
    ensures Findings(config, template, Policy(true, i1), path) == Findings(config, template, Policy(true, i2), path)
    decreases template, 1, 0
  {
    StrictOverridesIgnoreMissingUpTo(config.entries, template, i1, i2, path, |template.entries|);
  }

  lemma {:induction false} StrictOverridesIgnoreMissingUpTo(config: seq<(string, Value)>, template: Value, i1: bool, i2: bool, path: seq<string>, n: nat)
    requires template.Map? && n <= |template.entries|
    ensures FindingsUpTo(config, template, Policy(true, i1), path, n) == FindingsUpTo(config, template, Policy(true, i2), path, n)
    decreases template, 0, n
  {
    if n > 0 {
      var key, expected := template.entries[n - 1].0, template.entries[n - 1].1;
      assert template.entries[n - 1] in template.entries;
      StrictOverridesIgnoreMissingUpTo(config, template, i1, i2, path, n - 1);
      match Lookup(config, key)
      case None =>
      case Some(actual) =>
        if expected.Map? && actual.Map? {
          StrictOverridesIgnoreMissing(actual, expected, i1, i2, path + [key]);
        }
    }
  }

  /** Enabling `strict` never lowers the number of errors reported. */
  lemma {:induction false} StrictNeverFewerErrors(config: Value, template: Value, ignoreMissing: bool, path: seq<string>)
    requires config.Map? && template.Map?
    ensures |Errors(Findings(config, template, Policy(false, ignoreMissing), path))|
      <= |Errors(Findings(config, template, Policy(true, ignoreMissing), path))|
    decreases template, 1, 0
  {
    var lax, strict := Policy(false, ignoreMissing), Policy(true, ignoreMissing);
    var n := |template.entries|;
    StrictNeverFewerErrorsUpTo(config.entries, template, ignoreMissing, path, n);
    var extra := if ReportsExtraKeys(lax) then ExtraFindings(Keys(config.entries), template.entries, path, |config.entries|) else [];
    ErrorsExactly(extra);
    ErrorsAppend(FindingsUpTo(config.entries, template, lax, path, n), extra);
    ErrorsAppend(FindingsUpTo(config.entries, template, strict, path, n), []);
  }

  lemma {:induction false} StrictNeverFewerErrorsUpTo(config: seq<(string, Value)>, template: Value, ignoreMissing: bool, path: seq<string>, n: nat)
    requires template.Map? && n <= |template.entries|
    ensures |Errors(FindingsUpTo(config, template, Policy(false, ignoreMissing), path, n))|
      <= |Errors(FindingsUpTo(config, template, Policy(true, ignoreMissing), path, n))|
    decreases template, 0, n
  {
    if n > 0 {
      var lax, strict := Policy(false, ignoreMissing), Policy(true, ignoreMissing);
      var key, expected := template.entries[n - 1].0, template.entries[n - 1].1;
      assert template.entries[n - 1] in template.entries;
      var laxBefore, laxKey := FindingsUpTo(config, template, lax, path, n - 1), KeyFindings(config, key, expected, lax, path);
      var strictBefore, strictKey := FindingsUpTo(config, template, strict, path, n - 1), KeyFindings(config, key, expected, strict, path);
      assert FindingsUpTo(config, template, lax, path, n) == laxBefore + laxKey;
      assert FindingsUpTo(config, template, strict, path, n) == strictBefore + strictKey;
      assert |Errors(laxBefore)| <= |Errors(strictBefore)| by {
        StrictNeverFewerErrorsUpTo(config, template, ignoreMissing, path, n - 1);
      }
      assert |Errors(laxKey)| <= |Errors(strictKey)| by {
        StrictNeverFewerErrorsKey(config, key, expected, ignoreMissing, path);
      }
      ErrorsCountAppend(laxBefore, laxKey, strictBefore, strictKey);
    }
  }

  lemma {:induction false} StrictNeverFewerErrorsKey(config: seq<(string, Value)>, key: string, expected: Value, ignoreMissing: bool, path: seq<string>)
    ensures |Errors(KeyFindings(config, key, expected, Policy(false, ignoreMissing), path))|
      <= |Errors(KeyFindings(config, key, expected, Policy(true, ignoreMissing), path))|
    decreases expected, 2, 0
  {
    match Lookup(config, key)
    case None =>
    case Some(actual) =>
      if expected.Map? && actual.Map? {
        StrictNeverFewerErrors(actual, expected, ignoreMissing, path + [key]);
      }
  }

  /** Strict mode can only tighten the verdict: a configuration accepted in
      strict mode is accepted without it. */
  lemma StrictOnlyTightens(config: Value, template: Value, ignoreMissing: bool, path: seq<string>)
    requires config.Map? && template.Map?
    requires NoErrors(Findings(config, template, Policy(true, ignoreMissing), path))
    ensures NoErrors(Findings(config, template, Policy(false, ignoreMissing), path))
  {
    StrictNeverFewerErrors(config, template, ignoreMissing, path);
    ErrorsExactly(Findings(config, template, Policy(true, ignoreMissing), path));
    ErrorsExactly(Findings(config, template, Policy(false, ignoreMissing), path));
  }

  /** Outside strict mode, `ignore_missing` only silences warnings: the errors
      reported, and so the verdict, are the same with and without it. */
  lemma {:induction false} IgnoreMissingKeepsErrors(config: Value, template: Value, path: seq<string>)
    requires config.Map? && template.Map?
    ensures Errors(Findings(config, template, Policy(false, true), path))
      == Errors(Findings(config, template, Policy(false, false), path))
    decreases template, 1, 0
  {
    var n := |template.entries|;
    IgnoreMissingKeepsErrorsUpTo(config.entries, template, path, n);
    var extra := ExtraFindings(Keys(config.entries), template.entries, path, |config.entries|);
    ErrorsExactly(extra);
    ErrorsAppend(FindingsUpTo(config.entries, template, Policy(false, false), path, n), extra);
    ErrorsAppend(FindingsUpTo(config.entries, template, Policy(false, true), path, n), []);
  }

  lemma {:induction false} IgnoreMissingKeepsErrorsUpTo(config: seq<(string, Value)>, template: Value, path: seq<string>, n: nat)
    requires template.Map? && n <= |template.entries|
    ensures Errors(FindingsUpTo(config, template, Policy(false, true), path, n))
      == Errors(FindingsUpTo(config, template, Policy(false, false), path, n))
    decreases template, 0, n
  {
    if n > 0 {
      var quiet, loud := Policy(false, true), Policy(false, false);
      var key, expected := template.entries[n - 1].0, template.entries[n - 1].1;
      assert template.entries[n - 1] in template.entries;
      var quietBefore, quietKey := FindingsUpTo(config, template, quiet, path, n - 1), KeyFindings(config, key, expected, quiet, path);
      var loudBefore, loudKey := FindingsUpTo(config, template, loud, path, n - 1), KeyFindings(config, key, expected, loud, path);
      assert FindingsUpTo(config, template, quiet, path, n) == quietBefore + quietKey;
      assert FindingsUpTo(config, template, loud, path, n) == loudBefore + loudKey;
      assert Errors(quietBefore) == Errors(loudBefore) by {
        IgnoreMissingKeepsErrorsUpTo(config, template, path, n - 1);
      }
      assert Errors(quietKey) == Errors(loudKey) by {
        IgnoreMissingKeepsErrorsKey(config, key, expected, path);
      }
      ErrorsAppend(quietBefore, quietKey);
      ErrorsAppend(loudBefore, loudKey);
    }
  }

  lemma {:induction false} IgnoreMissingKeepsErrorsKey(config: seq<(string, Value)>, key: string, expected: Value, path: seq<string>)
    ensures Errors(KeyFindings(config, key, expected, Policy(false, true), path))
      == Errors(KeyFindings(config, key, expected, Policy(false, false), path))
    decreases expected, 2, 0
  {
    match Lookup(config, key)
    case None =>
    case Some(actual) =>
      if expected.Map? && actual.Map? {
        IgnoreMissingKeepsErrors(actual, expected, path + [key]);
      }
  }
}
