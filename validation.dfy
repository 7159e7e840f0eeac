/**
 * The required-field rules and the reusable validation hook of
 * src/hooks/useAgentFormValidation.ts: an error map and a touched set that the hook's
 * operations update.
 */
module Validation {
  import opened JsText

  /** The six required fields, in the order of the hook's rule table. */
  datatype Field = AgentName | Model | CallType | Language | Voice | Prompt

  const RuleOrder: seq<Field> := [AgentName, Model, CallType, Language, Voice, Prompt]
  const AllFields: set<Field> := {AgentName, Model, CallType, Language, Voice, Prompt}

  /** The current values of the six required fields. */
  datatype Required = Required(agentName: string, model: string, callType: string,
                               language: string, voice: string, prompt: string)

  function Value(values: Required, f: Field): string
  {
    match f
    case AgentName => values.agentName
    case Model => values.model
    case CallType => values.callType
    case Language => values.language
    case Voice => values.voice
    case Prompt => values.prompt
  }

  function Message(f: Field): string
  {
    match f
    case AgentName => "Agent name is required"
    case Model => "Model is required"
    case CallType => "Call type is required"
    case Language => "Language is required"
    case Voice => "Voice is required"
    case Prompt => "Prompt is required"
  }

  /** `rules[f](v)`: "" for a valid value, the field's message otherwise. The name is checked
      after `trim()`, the other five only against the empty string. */
  function Rule(f: Field, v: string): (msg: string)
    ensures msg == "" || msg == Message(f)
  {
    if f == AgentName then (if Trim(v) == "" then Message(f) else "")
    else if v == "" then Message(f) else ""
  }

  /** The name fails exactly when it is white space only (so "  " fails and " a " passes);
      every other field fails exactly when it is the empty string (so " " passes). */
  lemma RuleMeaning(f: Field, v: string)
    ensures f == AgentName ==> (Rule(f, v) != "" <==> AllSpace(v))
    ensures f != AgentName ==> (Rule(f, v) != "" <==> v == "")
  {
    TrimEmpty(v);
  }

  /** Whether field `f` of `values` breaks its rule. */
  predicate Fails(values: Required, f: Field)
  {
    Rule(f, Value(values, f)) != ""
  }

  /** The error map holding exactly the failing fields, each with its message. */
  function ErrorsFor(values: Required): (errs: map<Field, string>)
    ensures forall f :: f in errs <==> Fails(values, f)
    ensures forall f :: f in errs ==> errs[f] == Message(f)
  {
    AllFieldsComplete();
    map f | f in AllFields && Fails(values, f) :: Message(f)
  }

  /** An error is on screen only when it is non-empty and its field is touched. */
  predicate Shown(errors: map<Field, string>, touched: set<Field>, f: Field)
  {
    f in errors && errors[f] != "" && f in touched
  }

  lemma AllFieldsComplete()
    ensures forall f :: f in AllFields
  {
    forall f ensures f in AllFields {
      match f
      case AgentName =>
      case Model =>
      case CallType =>
      case Language =>
      case Voice =>
      case Prompt =>
    }
  }

  /** Any map listing exactly the failing fields with their messages is the error map. */
  lemma ErrorsForUnique(values: Required, m: map<Field, string>)
    requires forall f :: f in m <==> Fails(values, f)
    requires forall f :: f in m ==> m[f] == Message(f)
    ensures m == ErrorsFor(values)
    ensures m == map[] <==> forall f :: !Fails(values, f)
  {
    var e := ErrorsFor(values);
    assert m.Keys == e.Keys;
    if m != map[] {
      var f :| f in m;
    }
  }

  /** A set holding every field of the rule table holds every field. */
  lemma RuleOrderCovers(done: set<Field>)
    requires forall j :: 0 <= j < |RuleOrder| ==> RuleOrder[j] in done
    ensures forall f :: f in done
  {
    assert RuleOrder[0] in done && RuleOrder[1] in done && RuleOrder[2] in done;
    assert RuleOrder[3] in done && RuleOrder[4] in done && RuleOrder[5] in done;
    forall f ensures f in done {
      match f
      case AgentName =>
      case Model =>
      case CallType =>
      case Language =>
      case Voice =>
      case Prompt =>
    }
  }

  /** The `forEach` of `validateForm`: visits the rules in table order, collecting the message
      of every failing field into `newErrors` and clearing `valid` on the first failure. */
  method CollectErrors(values: Required) returns (newErrors: map<Field, string>, valid: bool)
    ensures newErrors == ErrorsFor(values)
    ensures valid <==> newErrors == map[]
    ensures valid <==> forall f :: !Fails(values, f)
  {
    valid := true;
    newErrors := map[];
    ghost var done: set<Field> := {};
    var i := 0;
    while i < |RuleOrder|
      invariant 0 <= i <= |RuleOrder|
      invariant forall j :: 0 <= j < i ==> RuleOrder[j] in done
      invariant forall f :: f in newErrors <==> f in done && Fails(values, f)
      invariant forall f :: f in newErrors ==> newErrors[f] == Message(f)
      invariant valid <==> forall f :: f !in newErrors
    {
      var field := RuleOrder[i];
      var error := Rule(field, Value(values, field));
      assert error != "" <==> Fails(values, field);
      if error != "" {
        newErrors := newErrors[field := error];
        valid := false;
      }
      done := done + {field};
      i := i + 1;
    }
    CollectedAll(values, newErrors, done);
  }

  /** Once every rule of the table has been visited, the collected map is the error map. */
  lemma CollectedAll(values: Required, m: map<Field, string>, done: set<Field>)
    requires forall j :: 0 <= j < |RuleOrder| ==> RuleOrder[j] in done
    requires forall f :: f in m <==> f in done && Fails(values, f)
    requires forall f :: f in m ==> m[f] == Message(f)
    ensures m == ErrorsFor(values)
    ensures m == map[] <==> forall f :: !Fails(values, f)
  {
    RuleOrderCovers(done);
    ErrorsForUnique(values, m);
  }

  /** The state of `useAgentFormValidation`: `errors` and `touched`. The hook's argument
      `values` is passed to each operation, as each render passes the current values. */
  class FormValidation {
    var errors: map<Field, string>
    var touched: set<Field>

    constructor ()
      ensures errors == map[] && touched == {}
    {
      errors := map[];
      touched := {};
    }

    /** `validateField`: an untouched field is reported valid and nothing changes; a touched
        one gets `errors[field]` set to its rule's result (possibly ""), the other entries
        kept, and is reported valid iff that result is "". */
    method ValidateField(values: Required, field: Field) returns (valid: bool)
      modifies this`errors
      ensures field !in touched ==> valid && errors == old(errors)
      ensures field in touched ==>
                errors == old(errors)[field := Rule(field, Value(values, field))]
                && (valid <==> !Fails(values, field))
      ensures forall f :: f != field ==> (f in errors <==> f in old(errors))
      ensures forall f :: f != field && f in errors ==> errors[f] == old(errors)[f]
    {
      if field !in touched {
        return true;
      }
      var error := Rule(field, Value(values, field));
      errors := errors[field := error];
      valid := error == "";
    }

    /** `validateForm`: runs every rule in table order, replaces `errors` by the map of the
        failing fields, marks all six fields touched whatever the outcome, and reports whether
        nothing failed. */
    method ValidateForm(values: Required) returns (valid: bool)
      modifies this`errors, this`touched
      ensures errors == ErrorsFor(values)
      ensures valid <==> errors == map[]
      ensures valid <==> forall f :: !Fails(values, f)
      ensures touched == AllFields
    {
      var newErrors;
      newErrors, valid := CollectErrors(values);
      errors := newErrors;
      touched := AllFields;
    }

    /** `markTouched`: adds `field` to `touched` and then runs `validateField` — which, as
        the closure of that render, still sees the `touched` from before the update, so the
        error entry is refreshed only when the field was already touched. */
    method MarkTouched(values: Required, field: Field)
      modifies this`errors, this`touched
      ensures touched == old(touched) + {field}
      ensures errors == if field in old(touched)
                        then old(errors)[field := Rule(field, Value(values, field))]
                        else old(errors)
    {
      var before := touched;
      touched := touched + {field};
      if field in before {
        var error := Rule(field, Value(values, field));
        errors := errors[field := error];
      }
    }
  }
}
