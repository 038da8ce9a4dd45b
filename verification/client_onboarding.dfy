/**
 * `ClientOnboardingService`: creates clients after validating them, gives a
 * new client a set of default mapping rules, and clones the mapping rules of
 * an existing client onto a new one. The client table and the mapping-rule
 * table are fields of the service.
 */
module ClientOnboarding {
  import opened Wrappers
  import opened Text
  import opened Entities
  import opened MappingRules

  const NAME_REQUIRED: string := "Client name is required"
  const NAME_TOO_LONG: string := "Client name must not exceed 255 characters"
  const DESCRIPTION_TOO_LONG: string := "Client description must not exceed 500 characters"
  const STATUS_REQUIRED: string := "Client status is required"
  const SOURCE_NOT_FOUND: string := "Source client not found"

  /** The exceptions the service lets through: its own checks, and the client service's uniqueness checks. */
  datatype Failure = IllegalArgumentException(message: string) | ValidationException(message: string)

  function NameExists(name: Option<string>): string {
    "Client with name " + Str(name) + " already exists"
  }

  function CodeExists(code: Option<string>): string {
    "Client with code " + Str(code) + " already exists"
  }

  /**
   * `validateClientData(client)`: the first failed check's message, `None`
   * when the client passes. Lengths are Java string lengths (UTF-16 units).
   */
  function ValidateClientData(c: Client): (r: Option<string>)
    ensures r == Some(NAME_REQUIRED) <==> c.name.None? || IsJavaBlank(c.name.value)
    ensures r == Some(NAME_TOO_LONG) <==> c.name.Some? && !IsJavaBlank(c.name.value) && Utf16Length(c.name.value) > 255
    ensures r == Some(DESCRIPTION_TOO_LONG) <==>
              c.name.Some? && !IsJavaBlank(c.name.value) && Utf16Length(c.name.value) <= 255
              && c.description.Some? && Utf16Length(c.description.value) > 500
    ensures r == Some(STATUS_REQUIRED) <==>
              c.name.Some? && !IsJavaBlank(c.name.value) && Utf16Length(c.name.value) <= 255
              && (c.description.None? || Utf16Length(c.description.value) <= 500) && c.status.None?
    ensures r.None? || r.value in {NAME_REQUIRED, NAME_TOO_LONG, DESCRIPTION_TOO_LONG, STATUS_REQUIRED}
  {
    if c.name.None? || IsJavaBlank(c.name.value) then Some(NAME_REQUIRED)
    else if Utf16Length(c.name.value) > 255 then Some(NAME_TOO_LONG)
    else if c.description.Some? && Utf16Length(c.description.value) > 500 then Some(DESCRIPTION_TOO_LONG)
    else if c.status.None? then Some(STATUS_REQUIRED)
    else None
  }

  /** A client passes exactly when it has a non-blank name of at most 255 units, a description of at most 500, and a status. */
  lemma ValidClientIff(c: Client)
    ensures ValidateClientData(c).None? <==>
              c.name.Some? && !IsJavaBlank(c.name.value) && Utf16Length(c.name.value) <= 255
              && (c.description.None? || Utf16Length(c.description.value) <= 500) && c.status.Some?
  {
  }

  /** `existsByName(name)`: some stored client has that name (a null name matches a null name). */
  predicate NameTaken(clients: seq<Client>, name: Option<string>) {
    exists i :: 0 <= i < |clients| && clients[i].name == name
  }

  /** `existsByCode(code)`. */
  predicate CodeTaken(clients: seq<Client>, code: Option<string>) {
    exists i :: 0 <= i < |clients| && clients[i].code == code
  }

  /** No two stored clients share a name or a code, as the unique columns of the client table demand. */
  predicate UniqueNamesAndCodes(clients: seq<Client>) {
    forall i, j :: 0 <= i < j < |clients| ==> clients[i].name != clients[j].name && clients[i].code != clients[j].code
  }

  /** Saving only a client whose name and code are free keeps names and codes unique. */
  lemma SaveKeepsUnique(clients: seq<Client>, c: Client)
    requires UniqueNamesAndCodes(clients) && !NameTaken(clients, c.name) && !CodeTaken(clients, c.code)
    ensures UniqueNamesAndCodes(clients + [c])
  {
    var all := clients + [c];
    forall i, j | 0 <= i < j < |all| ensures all[i].name != all[j].name && all[i].code != all[j].code {
      if j == |clients| {
        assert all[i] == clients[i];
      } else {
        assert all[i] == clients[i] && all[j] == clients[j];
      }
    }
  }

  /** `getClientById(id)`: the stored client with that id, the first one if several. */
  function ClientById(clients: seq<Client>, id: int): (r: Option<Client>)
    ensures r.None? <==> forall i :: 0 <= i < |clients| ==> clients[i].id != Some(id)
    ensures r.Some? ==> r.value in clients && r.value.id == Some(id)
    decreases |clients|
  {
    if clients == [] then None
    else if clients[0].id == Some(id) then Some(clients[0])
    else
      var rest := ClientById(clients[1..], id);
      assert forall i :: 1 <= i < |clients| ==> clients[i] == clients[1..][i - 1];
      rest
  }

  /** The copy `cloneClientConfiguration` makes of a source rule for the client `clientId`. */
  function CloneOf(source: RuleFields, clientId: Option<int>): RuleFields {
    NEW_RULE.(client := clientId, name := source.name, description := source.description,
              sourceField := source.sourceField, targetField := source.targetField,
              transformation := source.transformation)
  }

  function Clones(sources: seq<RuleFields>, clientId: Option<int>): (r: seq<RuleFields>)
    ensures |r| == |sources| && forall i :: 0 <= i < |r| ==> r[i] == CloneOf(sources[i], clientId)
  {
    seq(|sources|, i requires 0 <= i < |sources| => CloneOf(sources[i], clientId))
  }

  /**
   * What a clone keeps of its source: the name, description, transformation
   * and client-facing fields, with the XML path and database field reached
   * only through `sourceField` and `targetField`. Everything else starts
   * afresh: a clone is not active, not required, not an attribute and has no
   * interface.
   */
  lemma CloneMeaning(source: RuleFields, clientId: Option<int>)
    ensures var c := CloneOf(source, clientId);
            c.client == clientId && c.name == source.name && c.description == source.description
            && c.transformation == source.transformation
            && XmlPathOf(c) == source.sourceField && DatabaseFieldOf(c) == source.targetField
            && c.id.None? && c.isActive.None? && !IsRequired(c) && !IsAttribute(c) && InterfaceIdOf(c).None?
  {
  }

  /** The two templates of `getDefaultMappingRules()`. */
  const DEFAULT_RULES: seq<RuleFields> := [
    NEW_RULE.(name := Some("Default Header Rule"), description := Some("Default mapping rule for ASN headers"),
              sourceField := Some("documentNumber"), targetField := Some("docNumber")),
    NEW_RULE.(name := Some("Default Line Rule"), description := Some("Default mapping rule for ASN lines"),
              sourceField := Some("lineNumber"), targetField := Some("lineNum"))
  ]

  /** The templates belong to no client, have distinct names, and map a source field to a target field. */
  lemma DefaultRulesShape()
    ensures |DEFAULT_RULES| == 2 && DEFAULT_RULES[0].name != DEFAULT_RULES[1].name
    ensures forall i :: 0 <= i < 2 ==> DEFAULT_RULES[i].client.None? && XmlPathOf(DEFAULT_RULES[i]).Some?
                                       && DatabaseFieldOf(DEFAULT_RULES[i]).Some?
  {
  }

  function RuleObjects(rules: Option<seq<MappingRule>>): set<MappingRule> {
    if rules.None? then {} else set r | r in rules.value
  }

  class ClientOnboardingService {
    /** The client table. */
    var clients: seq<Client>
    /** The mapping-rule table. */
    var rules: seq<RuleFields>
    /** The id the next stored client gets. */
    var nextId: int

    constructor(storedClients: seq<Client>, storedRules: seq<RuleFields>, firstId: int)
      ensures clients == storedClients && rules == storedRules && nextId == firstId
    {
      clients := storedClients;
      rules := storedRules;
      nextId := firstId;
    }

    /**
     * `ClientService.saveClient(client)` for a new client: refused when the
     * name or the code is taken, otherwise stored under a fresh id.
     */
    method SaveClient(c: Client) returns (r: Result<Client, Failure>)
      modifies this
      ensures NameTaken(old(clients), c.name) ==> r == Err(ValidationException(NameExists(c.name)))
      ensures !NameTaken(old(clients), c.name) && CodeTaken(old(clients), c.code) ==>
                r == Err(ValidationException(CodeExists(c.code)))
      ensures r.Err? ==> clients == old(clients) && nextId == old(nextId)
      ensures r.Ok? <==> !NameTaken(old(clients), c.name) && !CodeTaken(old(clients), c.code)
      ensures r.Ok? ==> r.value == c.(id := Some(old(nextId))) && clients == old(clients) + [r.value]
                        && nextId == old(nextId) + 1
      ensures rules == old(rules)
    {
      if NameTaken(clients, c.name) {
        return Err(ValidationException(NameExists(c.name)));
      }
      if CodeTaken(clients, c.code) {
        return Err(ValidationException(CodeExists(c.code)));
      }
      var saved := c.(id := Some(nextId));
      clients := clients + [saved];
      nextId := nextId + 1;
      r := Ok(saved);
    }

    /**
     * `onboardClient(client)`: a client whose name is taken is refused before
     * anything is saved; otherwise the client is saved.
     */
    method OnboardClient(c: Client) returns (r: Result<Client, Failure>)
      modifies this
      ensures NameTaken(old(clients), c.name) ==>
                r == Err(IllegalArgumentException(NameExists(c.name))) && clients == old(clients) && nextId == old(nextId)
      ensures !NameTaken(old(clients), c.name) && CodeTaken(old(clients), c.code) ==>
                r == Err(ValidationException(CodeExists(c.code))) && clients == old(clients) && nextId == old(nextId)
      ensures r.Ok? <==> !NameTaken(old(clients), c.name) && !CodeTaken(old(clients), c.code)
      ensures r.Ok? ==> r.value == c.(id := Some(old(nextId))) && clients == old(clients) + [r.value]
                        && nextId == old(nextId) + 1
      ensures rules == old(rules)
    {
      if NameTaken(clients, c.name) {
        return Err(IllegalArgumentException(NameExists(c.name)));
      }
      r := SaveClient(c);
    }

    /**
     * `onboardNewClient(client, defaultMappingRules)`: validates and saves the
     * client, then assigns each given rule to it and saves the rule. A null
     * list is no rules.
     */
    method OnboardNewClient(c: Client, defaults: Option<seq<MappingRule>>) returns (r: Result<Client, Failure>)
      modifies this, RuleObjects(defaults)
      ensures ValidateClientData(c).Some? ==>
                r == Err(IllegalArgumentException(ValidateClientData(c).value)) && clients == old(clients)
      ensures r.Ok? <==> ValidateClientData(c).None? && !NameTaken(old(clients), c.name) && !CodeTaken(old(clients), c.code)
      ensures r.Ok? ==> r.value == c.(id := Some(old(nextId))) && clients == old(clients) + [r.value]
      ensures r.Err? ==> rules == old(rules) && forall o :: o in RuleObjects(defaults) ==> o.fields == old(o.fields)
      ensures r.Ok? && defaults.None? ==> rules == old(rules)
      ensures r.Ok? && defaults.Some? ==>
                var ds := defaults.value;
                |rules| == |old(rules)| + |ds| && rules[..|old(rules)|] == old(rules)
                && (forall j :: 0 <= j < |ds| ==> rules[|old(rules)| + j] == old(ds[j].fields).(client := r.value.id))
                && (forall j :: 0 <= j < |ds| ==> ds[j].fields == old(ds[j].fields).(client := r.value.id))
    {
      var problem := ValidateClientData(c);
      if problem.Some? {
        return Err(IllegalArgumentException(problem.value));
      }
      r := SaveClient(c);
      if r.Err? || defaults.None? {
        return;
      }
      AssignRules(defaults.value, r.value.id);
    }

    /** The loop of `onboardNewClient`: each rule is assigned to the client and saved, in order. */
    method AssignRules(ds: seq<MappingRule>, clientId: Option<int>)
      modifies this, set o | o in ds
      ensures clients == old(clients) && nextId == old(nextId)
      ensures |rules| == |old(rules)| + |ds| && rules[..|old(rules)|] == old(rules)
      ensures forall j :: 0 <= j < |ds| ==> rules[|old(rules)| + j] == old(ds[j].fields).(client := clientId)
      ensures forall j :: 0 <= j < |ds| ==> ds[j].fields == old(ds[j].fields).(client := clientId)
    {
      var i := 0;
      while i < |ds|
        invariant 0 <= i <= |ds|
        invariant clients == old(clients) && nextId == old(nextId)
        invariant |rules| == |old(rules)| + i && rules[..|old(rules)|] == old(rules)
        invariant forall j :: 0 <= j < i ==> rules[|old(rules)| + j] == old(ds[j].fields).(client := clientId)
        invariant forall j :: 0 <= j < i ==> ds[j].fields == old(ds[j].fields).(client := clientId)
        invariant forall j :: 0 <= j < |ds| ==>
                    ds[j].fields == old(ds[j].fields) || ds[j].fields == old(ds[j].fields).(client := clientId)
      {
        var rule := ds[i];
        rule.fields := rule.fields.(client := clientId);
        rules := rules + [rule.fields];
        i := i + 1;
      }
    }

    /**
     * `cloneClientConfiguration(sourceClientId, newClient)`: refused when the
     * source client does not exist; otherwise the new client is saved and
     * gets a copy of each of the source client's rules, in table order.
     */
    method CloneClientConfiguration(sourceClientId: int, newClient: Client) returns (r: Result<Client, Failure>)
      modifies this
      ensures ClientById(old(clients), sourceClientId).None? ==>
                r == Err(IllegalArgumentException(SOURCE_NOT_FOUND)) && clients == old(clients) && rules == old(rules)
      ensures r.Ok? <==> ClientById(old(clients), sourceClientId).Some?
                         && !NameTaken(old(clients), newClient.name) && !CodeTaken(old(clients), newClient.code)
      ensures r.Err? ==> rules == old(rules)
      ensures r.Ok? ==> r.value == newClient.(id := Some(old(nextId))) && clients == old(clients) + [r.value]
                        && rules == old(rules) + Clones(RulesWhere(old(rules), (f: RuleFields) => f.client == Some(sourceClientId)), r.value.id)
    {
      var source := ClientById(clients, sourceClientId);
      if source.None? {
        return Err(IllegalArgumentException(SOURCE_NOT_FOUND));
      }
      r := SaveClient(newClient);
      if r.Err? {
        return;
      }
      var created := r.value;
      var sourceRules := RulesWhere(rules, (f: RuleFields) => f.client == Some(sourceClientId));
      var before := rules;
      var i := 0;
      while i < |sourceRules|
        invariant 0 <= i <= |sourceRules|
        invariant r == Ok(created) && clients == old(clients) + [created]
        invariant rules == before + Clones(sourceRules[..i], created.id)
      {
        var newRule := new MappingRule();
        newRule.fields := newRule.fields.(client := created.id, name := sourceRules[i].name,
                                          description := sourceRules[i].description,
                                          sourceField := sourceRules[i].sourceField,
                                          targetField := sourceRules[i].targetField,
                                          transformation := sourceRules[i].transformation);
        rules := rules + [newRule.fields];
        assert Clones(sourceRules[..i + 1], created.id) == Clones(sourceRules[..i], created.id) + [CloneOf(sourceRules[i], created.id)];
        i := i + 1;
      }
      assert sourceRules[..i] == sourceRules;
    }
  }

  /** `getDefaultMappingRules()`: two new rule entities holding the templates. */
  method GetDefaultMappingRules() returns (rs: seq<MappingRule>)
    ensures |rs| == 2 && fresh(rs[0]) && fresh(rs[1]) && rs[0] != rs[1]
    ensures forall i :: 0 <= i < 2 ==> rs[i].fields == DEFAULT_RULES[i]
  {
    var rule1 := new MappingRule();
    rule1.fields := rule1.fields.(name := Some("Default Header Rule"), description := Some("Default mapping rule for ASN headers"),
                                  sourceField := Some("documentNumber"), targetField := Some("docNumber"));
    var rule2 := new MappingRule();
    rule2.fields := rule2.fields.(name := Some("Default Line Rule"), description := Some("Default mapping rule for ASN lines"),
                                  sourceField := Some("lineNumber"), targetField := Some("lineNum"));
    rs := [rule1, rule2];
  }
}
