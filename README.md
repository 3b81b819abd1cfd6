# Config template enforcer: the structural validator

The tool checks a configuration document (JSON or YAML) against a template document. The template fixes the expected keys, the nesting and the type of every value. The core is `validate_config` in `main.py`. It walks the template's keys in template order and checks three things at each key:

- whether the key is present in the configuration, under the `--strict` and `--ignore_missing` policy;
- for a nested mapping, whether the configuration also holds a mapping there, and then the mapping's contents, recursively;
- for any other value, whether it has the same runtime type as the template's value. The values themselves are never compared.

At each mapping level the function then reports extra configuration keys, but only when neither flag is set. It logs every divergence as an error or a warning. It returns `True` exactly when no error was logged.

A second, small piece decides which parser reads a document. An explicit `--file_type` is used when given. Otherwise the suffix rule applies: `.json` is JSON, `.yaml` and `.yml` are YAML, and any other name is an error.

## Layout

- `wrappers.dfy` (`Wrappers`): `Option` and `Result`.
- `tree.dfy` (`Tree`): a parsed document as a `Value` with seven type tags (null, bool, int, float, text, list, mapping). A mapping is a sequence of (key, value) pairs in insertion order. The file also holds key lookup, the unique-key invariant every parsed dictionary has (`WellFormed`), and `SameShape`: two trees that agree on every type tag and on every mapping's keys in the same order. The order matters because extra-key warnings follow the configuration's key order.
- `report.dfy` (`Report`): a `Finding` is one log record. It holds the key path from the root, the kind (missing key, extra key, or type mismatch with the expected and actual tags) and the severity (error or warning).
- `validator.dfy` (`Validator`): `Findings` is the specification, a pure function giving every record in emission order. `ValidateConfig` is the function itself: a recursive method with the Python loop over the template keys and its `valid` flag. The loop over the configuration keys that reports extra keys is the method `ExtraKeyPass`, which `ValidateConfig` calls when neither flag is set. `ValidateConfig` is proved to emit exactly `Findings` and to return `valid == NoErrors(findings)`.
- `properties.dfy` (`Properties`): what the validator promises, proved by induction over the template.
- `filetype.dfy` (`FileType`): the file-type rule of `load_file` and `main`.
- `scenarios.dfy` (`Scenarios`): three small pairs of documents worked through in four scenarios. The first pair is checked both with no flag and under `strict`.

The model follows the code in these places:

- When a nested comparison fails, the code logs nothing at the parent's key. It only sets the parent's flag to false, and the nested call's own records are the only trace of the failure.
- The code calls `template_data.items()` on the template (main.py:161), so a template root that is not a mapping raises an exception. A list or string configuration root runs only in limited cases. No template key may be an element of the list, or a substring of the string, because `config_data[key]` (main.py:171) raises on them. For a list, every element must also be hashable for the extra-key test (main.py:191). `ValidateConfig` requires both roots to be mappings.
- The code's log messages name only the last key. The model's findings carry the full key path. The path's last element is that key.
- The code logs as it walks. The model returns the records as a sequence in the same order.

## Model

| member | source | states |
|---|---|---|
| `Validator.ValidateConfig` | main.py:146-194 | The records the function logs are exactly `Findings(config, template, policy, path)`, in order. The returned flag, which is set false in each error branch and when a nested call fails, equals "no error-level record was emitted". |
| `Validator.Findings` | main.py:160-194 | The reference definition of one call's records: each template key's records in template order, then the extra-key warnings in configuration order when neither flag is set. Against an empty configuration there are as many records as template keys, or none when only `ignore_missing` is set. |
| `Validator.FindingsUpTo` | main.py:160-186 | The records of the first `n` template keys, in template order. Against an empty configuration there are `n` records, or none when only `ignore_missing` is set. |
| `Validator.KeyFindings` | main.py:162-186 | The records of one template key: a missing key is reported by the policy and checked no further, and a nested mapping is compared recursively. Any other value is compared by type tag only. Only the nested comparison can give more than one record. |
| `Validator.ExtraFindings` | main.py:188-192 | Every extra-key record is a warning one level below the current mapping, at `path + [key]`. |
| `Validator.ExtraKeyPass` | main.py:190-192 | The loop over the configuration keys emits, in configuration order, one extra-key warning for each key the template lacks and nothing for the others. Its records are exactly `ExtraFindings` over all configuration keys. |
| `Tree.TagOf` | main.py:182-184 | Each of the seven runtime types has its own tag, and a value has the map tag exactly when it is a mapping. `bool` differs from `int`, and `int` differs from `float`. |
| `Tree.LookupFindsKey` | main.py:162-171 | `key not in config` holds exactly when lookup finds nothing. Otherwise `config[key]` is the value stored under that key. |
| `Tree.LookupUnique` | main.py:171 | In a mapping with unique keys, looking up an entry's key gives that entry's value. |
| `Report.ErrorsExactly` | main.py:160-194 | The error records among the findings are exactly the error-severity ones, and there are no more of them than findings. There are none exactly when the findings contain no error. |
| `Properties.FindingsClassified` | main.py:160-192 | Every record lies strictly below the current path. A missing key is an error under strict, a warning when neither flag is set, and never reported otherwise. An extra key is a warning, only when neither flag is set. A type mismatch is an error between two different tags. |
| `Properties.StrictReportsOnlyErrors` | main.py:162-169 | With `strict` set, every record at any depth is an error. |
| `Properties.IgnoreMissingReportsOnlyMismatches` | main.py:166-169 | With `ignore_missing` set and `strict` unset, no missing-key and no extra-key record appears at any depth. Only type-mismatch errors remain. |
| `Properties.RejectedIffStrictMissingOrMismatch` | main.py:160-194 | The verdict is false exactly when some record is a type mismatch or a strict-mode missing key. Warnings never change it. |
| `Properties.KeyFindingsIncluded` | main.py:161-186 | Every record produced for any one template key is among the call's records. |
| `Properties.StrictMissingKeyRejects` | main.py:162-169 | Under `strict`, a template key absent from the configuration yields exactly one missing-key error at that key, whatever `ignore_missing` is, and the verdict is false. |
| `Properties.DefaultMissingKeyWarns` | main.py:166-169 | With neither flag set, an absent template key yields exactly one missing-key warning at that key. |
| `Properties.MapMismatchRejects` | main.py:173-177 | A template mapping met by a non-mapping yields exactly one type-mismatch error (map tag against the actual tag), with no recursion, and the verdict is false. |
| `Properties.ScalarMismatchRejects` | main.py:180-186 | A template value that is not a mapping, met by a configuration value with another type tag, gives exactly one type-mismatch error naming both tags. The configuration is rejected. |
| `Properties.ScalarTagMatchSilent` | main.py:180-186 | A template value that is not a mapping, met by a configuration value with the same type tag, gives no record, whatever the two values are. |
| `Properties.KeyMissingRecord` | main.py:162-170 | One template key gives a missing-key record at `path + [k]` exactly when that key is `k`, the configuration lacks it, and the policy reports missing keys with that severity. |
| `Properties.MissingKeyReportedUpTo` | main.py:161-170 | The first `n` template keys give a missing-key record at `path + [k]` exactly when one of them is `k`, the configuration lacks it, and the policy reports missing keys with that severity. |
| `Properties.EmptyConfigAllMissingUpTo` | main.py:161-169 | Against an empty configuration, every record of the first `n` template keys is a missing-key record one level below `path`, with the severity the policy gives missing keys. |
| `Properties.EmptyConfigAllMissing` | main.py:161-194 | An empty configuration gets one record per template key, or none when only `ignore_missing` is set. Every record is a missing-key record one level below `path`, with the policy's severity for missing keys. |
| `Properties.MissingKeyReported` | main.py:161-170 | A call reports a missing key at `path + [k]` with a given severity exactly when `k` is a template key the configuration lacks and the policy gives that severity: error under `strict`, warning when neither flag is set, nothing when only `ignore_missing` is set. |
| `Properties.NestedFindingsPropagate` | main.py:178-179 | When both sides hold a mapping, every nested record is reported by the parent under the key's path. A false nested verdict makes the parent false. |
| `Properties.ExtraFindingsExactly` | main.py:190-192 | Over the first `n` configuration keys, the extra-key pass warns at `path + [k]` exactly when `k` is one of those keys and the template lacks it. |
| `Properties.ExtraFindingsInKeyOrder` | main.py:190-192 | Extra-key warnings come in configuration-key order. The warnings for the first `m` keys are a prefix of the warnings for the first `n`, for any `m <= n`. |
| `Properties.ExtraKeyReported` | main.py:188-192 | A call's records contain an extra-key warning at `path + [k]` exactly when neither flag is set, `k` is a configuration key, and the template lacks `k`. |
| `Properties.ShapeOnlyMatters` | main.py:180-186 | Two configurations that agree on every type tag and every mapping's keys get identical records. Leaf values are never compared. |
| `Properties.IdenticalTreesHaveNoFindings` | main.py:161-194 | A template (with unique keys) compared against itself yields no record at all, under every policy. |
| `Properties.ConformingConfigAccepted` | main.py:161-194 | Any configuration with the template's shape yields no record and is accepted under every policy. In particular `validate_config(t, t, s, i)` is true. |
| `Properties.StrictOverridesIgnoreMissing` | main.py:162-169 | With `strict` set, the records do not depend on `ignore_missing`. |
| `Properties.StrictNeverFewerErrors` | main.py:162-169 | Setting `strict` never lowers the number of error records. |
| `Properties.StrictOnlyTightens` | main.py:162-169 | A configuration accepted with `strict` is accepted without it. |
| `Properties.IgnoreMissingKeepsErrors` | main.py:166-169 | Outside strict mode, `ignore_missing` leaves the error records, and so the verdict, unchanged. It only silences warnings. |
| `Scenarios.PortScenarioSteps` | main.py:161-186 | On `{"port": "8080"}` against `{"port": 8080, "host": "x"}`, the port key is a type mismatch (int expected, text found) and the host key is absent. |
| `Scenarios.PortScenarioDefault` | main.py:161-194 | With no flag set, the same documents give a mismatch error at `port`, then a missing-key warning at `host`, and are rejected. |
| `Scenarios.PortScenarioStrict` | main.py:162-165 | Under `strict`, the same documents give the mismatch error, then a missing-key error at `host`. |
| `Scenarios.NestedExtraKeyScenario` | main.py:178-192 | `{"a": {"b": 1, "c": 2}}` against `{"a": {"b": 1}}` gives only an extra-key warning at `a.c`, and is accepted. |
| `Scenarios.ScalarExpectedScenario` | main.py:180-186 | A mapping where the template holds an int gives one mismatch error (int expected, map found). |
| `FileType.InferFormat` | main.py:79-85 | A name gives JSON exactly when it ends in `.json`, and YAML exactly when it ends in `.yaml` or `.yml`. Any other name cannot be inferred. |
| `FileType.ParseFormatName` | main.py:87-92 | An explicit type is accepted exactly when it is "json" or "yaml", and it reads back as that name. Anything else is an invalid type. |
| `FileType.ResolveFormat` | main.py:79-92 | `load_file` uses an explicit type whatever the file's name, refusing names other than json and yaml. Without one, it picks JSON exactly for a `.json` name and YAML exactly for a `.yaml` or `.yml` name, and fails for any other name. |
| `FileType.MainFormat` | main.py:206-213 | `main` takes `--file_type` when given. Otherwise it picks JSON exactly when the configuration file's name ends in `.json`, YAML exactly when it ends in `.yaml` or `.yml`, and fails for any other name. |
| `FileType.FormatNameRoundTrip` | main.py:87-90 | A format's name is read back as that format. |
| `FileType.MainAndLoaderAgree` | main.py:206-224 | The type `main` settles on is the type `load_file` uses for both documents. The template is parsed in the configuration's format whatever its own name. For the configuration, the result agrees with `load_file`'s own suffix rule. |

## Left out

- Command-line parsing (`setup_argparse`), `main`'s exit codes and its catch-all exception handler are left out, because they are process plumbing. Only the file-type rule inside `main` is modelled, by `FileType.MainFormat`.
- File opening, `json.load` / `yaml.safe_load` and their error logging in `load_file` are left out. They are I/O and foreign parsers, so the validator takes already-parsed trees.
- `lint_file` is left out, because it runs external linters in a subprocess.
- The logging setup and the text of each log message are left out. Findings are structured records, and the message's rendering of Python type objects is not modelled.
- A template root that is not a mapping is excluded by a `requires` of `ValidateConfig`, because `template_data.items()` raises an exception there.
- A list or string configuration root is excluded by requiring a mapping, although the code sometimes accepts one. There `key not in config_data` is a membership or substring test, and the extra-key loop runs over the list's elements or the string's characters. The code runs to the end only when no template key is an element of the list or a substring of the string, since `config_data[key]` (main.py:171) raises otherwise. For a list, every element must also be hashable, since `key not in template_data` (main.py:191) raises otherwise. For example, `[]` against `{"a": 1}` logs one missing-key warning and returns true, while `["a"]` against `{"a": 1}` raises a `TypeError`.
- Keys are text. YAML can also produce integer or boolean keys, and Python treats `1`, `1.0` and `True` as the same dictionary key. Neither is modelled.
- Values are limited to the seven JSON kinds. Further YAML types, such as dates, are not modelled.
- A subclass of `dict` is not modelled: `isinstance` accepts one where `type(...) ==` would not.
- Float values carry no arithmetic, since only their tag is ever looked at.
- Lists are leaves, as in the code. Mappings inside lists are never checked.
- Python's recursion limit on very deep trees is not modelled.
- Cyclic documents are not modelled. YAML anchors and aliases can build a dictionary that contains itself, for example `&a {x: *a}`. On two such documents `validate_config` recurses at main.py:178 until Python raises `RecursionError`. `Value` is a finite tree, so it cannot express such input, and the model's termination argument relies on that.
- Identical-tree acceptance (`Properties.IdenticalTreesHaveNoFindings`, `Properties.ConformingConfigAccepted`) is proved for templates with unique keys at every level, the invariant every parsed dictionary has.
