/**
 * `AbstractDocumentProcessingStrategy`: the base of the mapping-rule driven
 * strategies. `processDocument` evaluates each active rule's XPath on the
 * document and fills a map from database field to value; `applyTransformation`
 * is the value transformation a rule names, which subclasses extend.
 */
module AbstractStrategy {
  import opened Wrappers
  import opened Text
  import opened MappingRules

  const REQUIRED_RULE_FAILED: string := "Failed to process required mapping rule: "

  /**
   * The library conversions a transformation may call (date and time parsing
   * and formatting, number formatting): for a selector and a value, the
   * converted text, or `None` when the library throws.
   */
  type Library = (string, string) -> Option<string>

  /** The selectors of the base class that are library conversions. */
  const LIBRARY_SELECTORS: set<string> := {"date", "time", "datetime", "number", "integer", "currency"}

  /**
   * `applyTransformation(value, transformation)` of the base class: a null or
   * blank value is returned as it is; the selector is matched in lower case;
   * `uppercase`, `lowercase` and `trim` change the text, the library
   * selectors convert it (keeping it when the conversion throws), and any other
   * selector keeps it.
   */
  function ApplyTransformation(value: Option<string>, transformation: string, library: Library): (r: Option<string>)
    ensures r.None? <==> value.None?
    ensures value.None? || IsJavaBlank(value.value) ==> r == value
    ensures value.Some? && !IsJavaBlank(value.value) ==>
              var t := ToLower(transformation);
              (t == "uppercase" ==> r == Some(ToUpper(value.value)))
              && (t == "lowercase" ==> r == Some(ToLower(value.value)))
              && (t == "trim" ==> r == Some(JavaTrim(value.value)))
              && (t in LIBRARY_SELECTORS && library(t, value.value).Some? ==> r == library(t, value.value))
              && (t in LIBRARY_SELECTORS && library(t, value.value).None? ==> r == value)
              && (t !in LIBRARY_SELECTORS + {"uppercase", "lowercase", "trim"} ==> r == value)
  {
    if value.None? || IsJavaBlank(value.value) then value
    else
      var v := value.value;
      var t := ToLower(transformation);
      if t == "uppercase" then Some(ToUpper(v))
      else if t == "lowercase" then Some(ToLower(v))
      else if t == "trim" then Some(JavaTrim(v))
      else if t in LIBRARY_SELECTORS then Some(library(t, v).GetOr(v))
      else value
  }

  /** The selector is case-insensitive: selectors equal up to case transform alike. */
  lemma SelectorIgnoresCase(value: Option<string>, t1: string, t2: string, library: Library)
    requires ToLower(t1) == ToLower(t2)
    ensures ApplyTransformation(value, t1, library) == ApplyTransformation(value, t2, library)
  {
  }

  lemma {:induction false} UpperIdempotent(s: string)
    ensures ToUpper(ToUpper(s)) == ToUpper(s)
  {
    var u := ToUpper(s);
    forall i | 0 <= i < |u| ensures ToUpper(u)[i] == u[i] {
      assert u[i] == UpperChar(s[i]);
    }
  }

  lemma {:induction false} LowerIdempotent(s: string)
    ensures ToLower(ToLower(s)) == ToLower(s)
  {
    var l := ToLower(s);
    forall i | 0 <= i < |l| ensures ToLower(l)[i] == l[i] {
      assert l[i] == LowerChar(s[i]);
    }
  }

  /** A trimmed string starts and ends with a kept character, so trimming again changes nothing. */
  lemma {:induction false} TrimIdempotent(s: string)
    ensures JavaTrim(JavaTrim(s)) == JavaTrim(s)
  {
    var t := JavaTrim(s);
    var a := DropStart(s, IsJavaTrimmed);
    assert t == DropEnd(a, IsJavaTrimmed);
    if t != [] {
      assert t[0] == a[0];
      assert DropStart(t, IsJavaTrimmed) == t;
      assert DropEnd(t, IsJavaTrimmed) == t;
    }
  }

  /** Changing case keeps a non-blank text non-blank. */
  lemma CaseKeepsBlankness(s: string)
    ensures IsJavaBlank(ToUpper(s)) <==> IsJavaBlank(s)
    ensures IsJavaBlank(ToLower(s)) <==> IsJavaBlank(s)
  {
    assert forall i :: 0 <= i < |s| ==> ToUpper(s)[i] == UpperChar(s[i]) && ToLower(s)[i] == LowerChar(s[i]);
  }

  /** Applying `uppercase`, `lowercase` or `trim` a second time changes nothing. */
  lemma StringCasesIdempotent(value: Option<string>, transformation: string, library: Library)
    requires ToLower(transformation) in {"uppercase", "lowercase", "trim"}
    ensures ApplyTransformation(ApplyTransformation(value, transformation, library), transformation, library)
            == ApplyTransformation(value, transformation, library)
  {
    if value.Some? && !IsJavaBlank(value.value) {
      var v := value.value;
      CaseKeepsBlankness(v);
      UpperIdempotent(v);
      LowerIdempotent(v);
      TrimIdempotent(v);
    }
  }

  // ---------------------------------------------------------------------
  // The rule loop of processDocument
  // ---------------------------------------------------------------------

  /** The outcome of evaluating a rule's XPath on the document: the text of each node found, or an exception. */
  datatype Evaluation = Nodes(texts: seq<string>) | Failed(message: string)

  /**
   * A rule's value: the text of the first node found, transformed when the
   * rule names a non-empty transformation; without a node, a non-empty default
   * value; otherwise none.
   */
  function RuleValue(rule: RuleFields, texts: seq<string>, apply: (Option<string>, string) -> Option<string>)
    : (r: Option<string>)
    ensures texts == [] ==> r == if rule.defaultValue.Some? && rule.defaultValue.value != "" then rule.defaultValue else None
    ensures texts != [] && (rule.transformation.None? || rule.transformation.value == "") ==> r == Some(texts[0])
    ensures texts != [] && rule.transformation.Some? && rule.transformation.value != "" ==>
              r == apply(Some(texts[0]), rule.transformation.value)
  {
    if texts != [] then
      if rule.transformation.Some? && rule.transformation.value != "" then apply(Some(texts[0]), rule.transformation.value)
      else Some(texts[0])
    else if rule.defaultValue.Some? && rule.defaultValue.value != "" then rule.defaultValue
    else None
  }

  /**
   * What a rule contributes when the loop reaches it: evaluating a null path
   * throws like a bad one, and a throw aborts the whole call on a required
   * rule and skips any other rule; else the rule's value, if any.
   */
  function Contribution(rule: RuleFields, evaluate: string -> Evaluation,
                        apply: (Option<string>, string) -> Option<string>): Result<Option<string>, string>
  {
    var path := XmlPathOf(rule);
    var e := if path.None? then Failed("NullPointerException") else evaluate(path.value);
    match e
    case Failed(_) => if IsRequired(rule) then Err(REQUIRED_RULE_FAILED + Str(rule.name)) else Ok(None)
    case Nodes(texts) => Ok(RuleValue(rule, texts, apply))
  }

  /** One iteration of the loop: an abort, or the result map with the rule's value stored under its database field. */
  function Step(m: map<Option<string>, string>, rule: RuleFields, evaluate: string -> Evaluation,
                apply: (Option<string>, string) -> Option<string>): Result<map<Option<string>, string>, string>
  {
    match Contribution(rule, evaluate, apply)
    case Err(e) => Err(e)
    case Ok(None) => Ok(m)
    case Ok(Some(v)) => Ok(m[DatabaseFieldOf(rule) := v])
  }

  /** The result of the loop over `rules`. */
  function Collect(rules: seq<RuleFields>, evaluate: string -> Evaluation,
                   apply: (Option<string>, string) -> Option<string>): Result<map<Option<string>, string>, string>
    decreases |rules|
  {
    if rules == [] then Ok(map[])
    else match Collect(rules[..|rules| - 1], evaluate, apply)
      case Err(e) => Err(e)
      case Ok(m) => Step(m, rules[|rules| - 1], evaluate, apply)
  }

  /**
   * The loop aborts exactly when some rule aborts, with the message of the
   * first such rule; otherwise a field is in the result iff some rule yields a
   * value for it, and it holds the value of the last such rule.
   */
  lemma {:induction false} CollectMeaning(rules: seq<RuleFields>, evaluate: string -> Evaluation,
                                          apply: (Option<string>, string) -> Option<string>)
    ensures Collect(rules, evaluate, apply).Err? <==>
              exists i :: 0 <= i < |rules| && Contribution(rules[i], evaluate, apply).Err?
    ensures Collect(rules, evaluate, apply).Err? ==>
              exists i :: 0 <= i < |rules| && Contribution(rules[i], evaluate, apply).Err?
                          && Collect(rules, evaluate, apply).error == Contribution(rules[i], evaluate, apply).error
                          && forall j :: 0 <= j < i ==> Contribution(rules[j], evaluate, apply).Ok?
    ensures Collect(rules, evaluate, apply).Ok? ==>
              var m := Collect(rules, evaluate, apply).value;
              forall k :: k in m <==> exists i :: 0 <= i < |rules| && DatabaseFieldOf(rules[i]) == k
                                                 && Contribution(rules[i], evaluate, apply) != Ok(None)
    ensures Collect(rules, evaluate, apply).Ok? ==>
              var m := Collect(rules, evaluate, apply).value;
              forall i :: 0 <= i < |rules| && Contribution(rules[i], evaluate, apply).Ok?
                          && Contribution(rules[i], evaluate, apply).value.Some?
                          && (forall j :: i < j < |rules| && DatabaseFieldOf(rules[j]) == DatabaseFieldOf(rules[i])
                                ==> Contribution(rules[j], evaluate, apply) == Ok(None))
                          ==> m[DatabaseFieldOf(rules[i])] == Contribution(rules[i], evaluate, apply).value.value
  {
    CollectAborts(rules, evaluate, apply);
    CollectKeys(rules, evaluate, apply);
    CollectValues(rules, evaluate, apply);
  }

  lemma {:induction false} CollectAborts(rules: seq<RuleFields>, evaluate: string -> Evaluation,
                                         apply: (Option<string>, string) -> Option<string>)
    ensures Collect(rules, evaluate, apply).Err? <==>
              exists i :: 0 <= i < |rules| && Contribution(rules[i], evaluate, apply).Err?
    ensures Collect(rules, evaluate, apply).Err? ==>
              exists i :: 0 <= i < |rules| && Contribution(rules[i], evaluate, apply).Err?
                          && Collect(rules, evaluate, apply).error == Contribution(rules[i], evaluate, apply).error
                          && forall j :: 0 <= j < i ==> Contribution(rules[j], evaluate, apply).Ok?
    decreases |rules|
  {
    if rules != [] {
      var init := rules[..|rules| - 1];
      CollectAborts(init, evaluate, apply);
      assert forall i :: 0 <= i < |init| ==> init[i] == rules[i];
    }
  }

  lemma {:induction false} CollectKeys(rules: seq<RuleFields>, evaluate: string -> Evaluation,
                                       apply: (Option<string>, string) -> Option<string>)
    ensures Collect(rules, evaluate, apply).Ok? ==>
              var m := Collect(rules, evaluate, apply).value;
              forall k :: k in m <==> exists i :: 0 <= i < |rules| && DatabaseFieldOf(rules[i]) == k
                                                 && Contribution(rules[i], evaluate, apply) != Ok(None)
    decreases |rules|
  {
    if rules != [] && Collect(rules, evaluate, apply).Ok? {
      var init := rules[..|rules| - 1];
      var last := rules[|rules| - 1];
      CollectKeys(init, evaluate, apply);
      assert Collect(init, evaluate, apply).Ok?;
      var before := Collect(init, evaluate, apply).value;
      var m := Collect(rules, evaluate, apply).value;
      assert Step(before, last, evaluate, apply) == Ok(m);
      StepKeys(before, last, evaluate, apply);
      assert forall k :: k in before <==> exists i :: 0 <= i < |init| && DatabaseFieldOf(init[i]) == k
                                                     && Contribution(init[i], evaluate, apply) != Ok(None);
      assert forall i :: 0 <= i < |init| ==> init[i] == rules[i];
      forall k ensures k in m <==> exists i :: 0 <= i < |rules| && DatabaseFieldOf(rules[i]) == k
                                               && Contribution(rules[i], evaluate, apply) != Ok(None)
      {
        KeyOfExtension(rules, before, m, k, evaluate, apply);
      }
    }
  }

  lemma KeyOfExtension(rules: seq<RuleFields>, before: map<Option<string>, string>, m: map<Option<string>, string>,
                       k: Option<string>, evaluate: string -> Evaluation,
                       apply: (Option<string>, string) -> Option<string>)
    requires rules != []
    requires var last := rules[|rules| - 1];
             m.Keys == before.Keys + if Contribution(last, evaluate, apply) == Ok(None) then {} else {DatabaseFieldOf(last)}
    requires k in before <==> exists i :: 0 <= i < |rules| - 1 && DatabaseFieldOf(rules[i]) == k
                                          && Contribution(rules[i], evaluate, apply) != Ok(None)
    ensures k in m <==> exists i :: 0 <= i < |rules| && DatabaseFieldOf(rules[i]) == k
                                    && Contribution(rules[i], evaluate, apply) != Ok(None)
  {
    if exists i :: 0 <= i < |rules| && DatabaseFieldOf(rules[i]) == k && Contribution(rules[i], evaluate, apply) != Ok(None) {
      var i :| 0 <= i < |rules| && DatabaseFieldOf(rules[i]) == k && Contribution(rules[i], evaluate, apply) != Ok(None);
      if i < |rules| - 1 {
        assert k in before;
      }
    }
  }

  /** A step that does not abort adds the rule's field exactly when the rule yields a value. */
  lemma StepKeys(m: map<Option<string>, string>, rule: RuleFields, evaluate: string -> Evaluation,
                 apply: (Option<string>, string) -> Option<string>)
    requires Step(m, rule, evaluate, apply).Ok?
    ensures Contribution(rule, evaluate, apply).Ok?
    ensures Step(m, rule, evaluate, apply).value.Keys
            == m.Keys + if Contribution(rule, evaluate, apply) == Ok(None) then {} else {DatabaseFieldOf(rule)}
  {
  }

  lemma {:induction false} CollectValues(rules: seq<RuleFields>, evaluate: string -> Evaluation,
                                         apply: (Option<string>, string) -> Option<string>)
    ensures Collect(rules, evaluate, apply).Ok? ==>
              var m := Collect(rules, evaluate, apply).value;
              forall i :: 0 <= i < |rules| && Contribution(rules[i], evaluate, apply).Ok?
                          && Contribution(rules[i], evaluate, apply).value.Some?
                          && (forall j :: i < j < |rules| && DatabaseFieldOf(rules[j]) == DatabaseFieldOf(rules[i])
                                ==> Contribution(rules[j], evaluate, apply) == Ok(None))
                          ==> DatabaseFieldOf(rules[i]) in m
                              && m[DatabaseFieldOf(rules[i])] == Contribution(rules[i], evaluate, apply).value.value
    decreases |rules|
  {
    if rules != [] {
      var init := rules[..|rules| - 1];
      CollectValues(init, evaluate, apply);
      CollectKeys(rules, evaluate, apply);
      CollectAborts(rules, evaluate, apply);
      assert forall i :: 0 <= i < |init| ==> init[i] == rules[i];
    }
  }

  /** Once a rule aborts the loop, the rules after it change nothing. */
  lemma {:induction false} AbortIsFinal(rules: seq<RuleFields>, k: nat, evaluate: string -> Evaluation,
                                        apply: (Option<string>, string) -> Option<string>)
    requires k <= |rules| && Collect(rules[..k], evaluate, apply).Err?
    ensures Collect(rules, evaluate, apply) == Collect(rules[..k], evaluate, apply)
    decreases |rules| - k
  {
    if k < |rules| {
      assert rules[..|rules| - 1][..k] == rules[..k];
      AbortIsFinal(rules[..|rules| - 1], k, evaluate, apply);
    } else {
      assert rules[..k] == rules;
    }
  }

  /**
   * `processDocument(document, interface, clientId)` of the base class, on
   * the active rules of the interface; `evaluate` is the XPath evaluation on
   * the document and `apply` the strategy's `applyTransformation`.
   */
  method ProcessDocument(rules: seq<RuleFields>, evaluate: string -> Evaluation,
                         apply: (Option<string>, string) -> Option<string>)
    returns (r: Result<map<Option<string>, string>, string>)
    ensures r == Collect(rules, evaluate, apply)
  {
    var result: map<Option<string>, string> := map[];
    var i := 0;
    while i < |rules|
      invariant 0 <= i <= |rules|
      invariant Collect(rules[..i], evaluate, apply) == Ok(result)
    {
      var rule := rules[i];
      assert rules[..i + 1][..i] == rules[..i];
      var path := XmlPathOf(rule);
      var e := if path.None? then Failed("NullPointerException") else evaluate(path.value);
      match e {
        case Failed(_) =>
          if IsRequired(rule) {
            AbortIsFinal(rules, i + 1, evaluate, apply);
            return Err(REQUIRED_RULE_FAILED + Str(rule.name));
          }
        case Nodes(texts) =>
          var value := RuleValue(rule, texts, apply);
          if value.Some? {
            result := result[DatabaseFieldOf(rule) := value.value];
          }
      }
      i := i + 1;
    }
    assert rules[..i] == rules;
    r := Ok(result);
  }
}
