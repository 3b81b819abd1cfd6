/** What the validator reports: one finding per log record, in emission order. */
module Report {
  import opened Tree

  /** `logging.error` or `logging.warning`. */
  datatype Severity = Error | Warning

  datatype Kind =
    | MissingKey
    | ExtraKey
    | TypeMismatch(expected: Tag, actual: Tag)

  /** One log record: the key it names (as the full key path from the root),
      what diverged, and how severe it is. */
  datatype Finding = Finding(path: seq<string>, kind: Kind, severity: Severity)

  /** No error-level record among the findings: warnings do not count. */
  predicate NoErrors(findings: seq<Finding>)
  {
    forall f | f in findings :: f.severity == Warning
  }

  /** Emitting one batch of findings after another is error-free exactly when both are. */
  lemma NoErrorsAppend(a: seq<Finding>, b: seq<Finding>)
    ensures NoErrors(a + b) <==> NoErrors(a) && NoErrors(b)
  {
  }

  /** The error-level records among the findings, in order. */
  function Errors(findings: seq<Finding>): seq<Finding>
  {
    if findings == [] then []
    else
      var rest := Errors(findings[1..]);
      if findings[0].severity == Error then [findings[0]] + rest else rest
  }

  /** The errors are exactly the error-level findings, in order, so there are
      none exactly when the findings hold no error. */
  lemma {:induction false} ErrorsExactly(findings: seq<Finding>)
    ensures |Errors(findings)| <= |findings|
    ensures forall f :: f in Errors(findings) <==> f in findings && f.severity == Error
    ensures Errors(findings) == [] <==> NoErrors(findings)
  {
    if findings != [] {
      assert findings == [findings[0]] + findings[1..];
      ErrorsExactly(findings[1..]);
    }
  }

  /** Taking the errors commutes with emitting one batch of findings after another. */
  lemma {:induction false} ErrorsAppend(a: seq<Finding>, b: seq<Finding>)
    ensures Errors(a + b) == Errors(a) + Errors(b)
  {
    if a == [] {
      assert a + b == b;
    } else {
      assert (a + b)[0] == a[0] && (a + b)[1..] == a[1..] + b;
      ErrorsAppend(a[1..], b);
    }
  }

  /** Batch by batch, no more errors in one emission than in another means no
      more errors overall. */
  lemma ErrorsCountAppend(a: seq<Finding>, b: seq<Finding>, c: seq<Finding>, d: seq<Finding>)
    requires |Errors(a)| <= |Errors(c)| && |Errors(b)| <= |Errors(d)|
    ensures |Errors(a + b)| <= |Errors(c + d)|
  {
    ErrorsAppend(a, b);
    ErrorsAppend(c, d);
  }
}
