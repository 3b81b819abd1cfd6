/** Worked examples of the validator on small documents. */
module Scenarios {
  import opened Wrappers
  import opened Tree
  import opened Report
  import opened Validator

  const Lax := Policy(false, false)
  const StrictOnly := Policy(true, false)

  /** Template {"port": 8080, "host": "x"} against config {"port": "8080"}. */
  const PortTemplate := Map([("port", Int(8080)), ("host", Text("x"))])
  const PortConfig := Map([("port", Text("8080"))])

  lemma PortScenarioSteps(p: Policy)
    ensures FindingsUpTo(PortConfig.entries, PortTemplate, p, [], 1)
      == [Finding(["port"], TypeMismatch(IntTag, TextTag), Error)]
    ensures FindingsUpTo(PortConfig.entries, PortTemplate, p, [], 2)
      == FindingsUpTo(PortConfig.entries, PortTemplate, p, [], 1) + KeyFindings(PortConfig.entries, "host", Text("x"), p, [])
    ensures Lookup(PortConfig.entries, "host") == None
  {
    assert Keys(PortConfig.entries) == ["port"];
    assert [] + ["port"] == ["port"];
    assert Lookup(PortConfig.entries, "port") == Some(Text("8080"));
    assert KeyFindings(PortConfig.entries, "port", Int(8080), p, [])
      == [Finding(["port"], TypeMismatch(IntTag, TextTag), Error)];
  }

  /** A text port is a type mismatch and the absent host only a warning;
      the configuration is rejected. */
  lemma PortScenarioDefault()
    ensures Findings(PortConfig, PortTemplate, Lax, []) ==
      [Finding(["port"], TypeMismatch(IntTag, TextTag), Error), Finding(["host"], MissingKey, Warning)]
    ensures !NoErrors(Findings(PortConfig, PortTemplate, Lax, []))
  {
    PortScenarioSteps(Lax);
    assert [] + ["host"] == ["host"];
    assert ExtraFindings(["port"], PortTemplate.entries, [], 1) == [] by {
      assert "port" in Keys(PortTemplate.entries);
    }
    assert Keys(PortConfig.entries) == ["port"];
  }

  /** In strict mode the absent host becomes an error too. */
  lemma PortScenarioStrict()
    ensures Findings(PortConfig, PortTemplate, StrictOnly, []) ==
      [Finding(["port"], TypeMismatch(IntTag, TextTag), Error), Finding(["host"], MissingKey, Error)]
    ensures !NoErrors(Findings(PortConfig, PortTemplate, StrictOnly, []))
  {
    PortScenarioSteps(StrictOnly);
    assert [] + ["host"] == ["host"];
  }

  /** An extra nested key is a warning at its full path; the configuration is accepted. */
  lemma NestedExtraKeyScenario()
    ensures var template := Map([("a", Map([("b", Int(1))]))]);
      var config := Map([("a", Map([("b", Int(1)), ("c", Int(2))]))]);
      && Findings(config, template, Lax, []) == [Finding(["a", "c"], ExtraKey, Warning)]
      && NoErrors(Findings(config, template, Lax, []))
  {
    var inner := Map([("b", Int(1))]);
    var innerConfig := Map([("b", Int(1)), ("c", Int(2))]);
    var template := Map([("a", inner)]);
    var config := Map([("a", innerConfig)]);
    assert [] + ["a"] == ["a"];
    assert ["a"] + ["b"] == ["a", "b"];
    assert ["a"] + ["c"] == ["a", "c"];
    assert Keys(innerConfig.entries) == ["b", "c"];
    assert Keys(inner.entries) == ["b"];
    assert Lookup(innerConfig.entries, "b") == Some(Int(1));
    assert FindingsUpTo(innerConfig.entries, inner, Lax, ["a"], 1) == [];
    assert ExtraFindings(["b", "c"], inner.entries, ["a"], 1) == [];
    assert ExtraFindings(["b", "c"], inner.entries, ["a"], 2) == [Finding(["a", "c"], ExtraKey, Warning)];
    assert Findings(innerConfig, inner, Lax, ["a"]) == [Finding(["a", "c"], ExtraKey, Warning)];
    assert Lookup(config.entries, "a") == Some(innerConfig);
    assert FindingsUpTo(config.entries, template, Lax, [], 1) == [Finding(["a", "c"], ExtraKey, Warning)];
    assert Keys(config.entries) == ["a"];
    assert ExtraFindings(["a"], template.entries, [], 1) == [] by {
      assert Keys(template.entries) == ["a"];
    }
  }

  /** A mapping where the template holds a scalar is a type mismatch at that key. */
  lemma ScalarExpectedScenario()
    ensures var template := Map([("a", Int(1))]);
      var config := Map([("a", Map([("x", Int(1))]))]);
      Findings(config, template, Lax, []) == [Finding(["a"], TypeMismatch(IntTag, MapTag), Error)]
  {
    var template := Map([("a", Int(1))]);
    var config := Map([("a", Map([("x", Int(1))]))]);
    assert [] + ["a"] == ["a"];
    assert Keys(config.entries) == ["a"];
    assert Keys(template.entries) == ["a"];
    assert Lookup(config.entries, "a") == Some(Map([("x", Int(1))]));
    assert FindingsUpTo(config.entries, template, Lax, [], 1) == [Finding(["a"], TypeMismatch(IntTag, MapTag), Error)];
    assert ExtraFindings(["a"], template.entries, [], 1) == [];
  }
}
