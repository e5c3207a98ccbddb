/** The form rules the login and register pages declare, as the form library applies them:
    `required` rejects an empty value; `min`, `max` and `type` rules are skipped for an
    empty value and otherwise test its length or its shape. */
module Forms {
  /** One declared rule with its message. */
  datatype Rule =
    | Required(message: string)
    | MinLength(min: nat, message: string)
    | MaxLength(max: nat, message: string)
    | Shape(accepts: string -> bool, message: string)

  /** Whether one rule rejects the value. */
  predicate Rejects(rule: Rule, value: string) {
    match rule
    case Required(_) => value == ""
    case MinLength(n, _) => value != "" && |value| < n
    case MaxLength(n, _) => value != "" && |value| > n
    case Shape(accepts, _) => value != "" && !accepts(value)
  }

  /** The messages shown under a field, in rule order. */
  function Errors(rules: seq<Rule>, value: string): (r: seq<string>)
    ensures |r| <= |rules|
    ensures r == [] <==> forall k :: 0 <= k < |rules| ==> !Rejects(rules[k], value)
  {
    if rules == [] then []
    else
      var rest := Errors(rules[1..], value);
      assert forall k :: 1 <= k < |rules| ==> rules[k] == rules[1..][k - 1];
      (if Rejects(rules[0], value) then [rules[0].message] else []) + rest
  }

  /** The messages of a rule list, rule by rule. */
  function Message(rule: Rule, value: string): seq<string> {
    if Rejects(rule, value) then [rule.message] else []
  }

  lemma ErrorsOfTwo(a: Rule, b: Rule, value: string)
    ensures Errors([a, b], value) == Message(a, value) + Message(b, value)
  {
    assert [a, b][1..] == [b];
    assert [b][1..] == [];
  }

  /** A field passes when no rule rejects its value. */
  predicate Passes(rules: seq<Rule>, value: string) {
    Errors(rules, value) == []
  }

  /** The rules of a required field with a length range, in declaration order. */
  function LengthRules(requiredMessage: string, min: nat, minMessage: string): seq<Rule> {
    [Required(requiredMessage), MinLength(min, minMessage)]
  }

  /** A required field with a minimum length passes exactly when it is that long, and an
      empty value shows only the required message. */
  lemma LengthRulesMeaning(requiredMessage: string, min: nat, minMessage: string, value: string)
    requires min >= 1
    ensures Passes(LengthRules(requiredMessage, min, minMessage), value) <==> |value| >= min
    ensures value == "" ==> Errors(LengthRules(requiredMessage, min, minMessage), value) == [requiredMessage]
    ensures 0 < |value| < min ==> Errors(LengthRules(requiredMessage, min, minMessage), value) == [minMessage]
  {
    ErrorsOfTwo(Required(requiredMessage), MinLength(min, minMessage), value);
  }
}
