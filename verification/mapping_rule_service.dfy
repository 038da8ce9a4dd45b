/**
 * `MappingRuleServiceImpl`: creating, updating and deleting mapping rules
 * within the current client's scope, choosing the query of the rule list, and
 * cutting pages out of rule lists it loads whole. The repository is the
 * sequence of stored rules; the client of the current request (the client
 * context) is a parameter.
 */
module MappingRuleService {
  import opened Wrappers
  import opened Text
  import opened Entities
  import opened MappingRules

  const NOT_FOUND: string := "Mapping rule not found with id: "
  const INTERFACE_NOT_FOUND: string := "Interface not found with id: "
  /** The exception `subList` throws when the start of the range lies after its end. */
  const ILLEGAL_RANGE: string := "IllegalArgumentException"
  /** The exception of reading the client of an interface that has none. */
  const NULL_POINTER: string := "NullPointerException"

  function Min(a: int, b: int): int { if a <= b then a else b }

  // ---------------------------------------------------------------------
  // Pages
  // ---------------------------------------------------------------------

  /** A page: its rules and the size of the whole list. */
  datatype Page = Page(content: seq<RuleFields>, total: nat)

  /**
   * The page cut as written: `subList(offset, min(offset + size, n))`, which
   * throws when the offset lies beyond the end of the list. A `Pageable` has a
   * non-negative offset and a positive size.
   */
  function SliceAsWritten(rows: seq<RuleFields>, offset: int, size: int): (r: Result<Page, string>)
    requires offset >= 0 && size >= 1
    ensures r.Err? <==> offset > |rows|
    ensures r.Ok? ==> r.value.total == |rows| && r.value.content == rows[offset..Min(offset + size, |rows|)]
  {
    var end := Min(offset + size, |rows|);
    if offset > end then Err(ILLEGAL_RANGE) else Ok(Page(rows[offset..end], |rows|))
  }

  /** Page 1 of size 2 (offset 2) of a one-rule list throws instead of coming back empty. */
  lemma PastEndThrows()
    ensures SliceAsWritten([NEW_RULE], 2, 2) == Err(ILLEGAL_RANGE)
  {
  }

  /** The page as intended: the rules from `offset` on, at most `size` of them, and none past the end. */
  function Slice(rows: seq<RuleFields>, offset: int, size: int): (r: Page)
    requires offset >= 0 && size >= 1
    ensures r.total == |rows|
    ensures |r.content| == if offset >= |rows| then 0 else Min(size, |rows| - offset)
    ensures forall i :: 0 <= i < |r.content| ==> r.content[i] == rows[offset + i]
  {
    if offset >= |rows| then Page([], |rows|) else Page(rows[offset..Min(offset + size, |rows|)], |rows|)
  }

  /** A page, when the code as written returns one, holds rows of the list it is cut from. */
  lemma PageFrom(rows: seq<RuleFields>, offset: int, size: int)
    requires offset >= 0 && size >= 1
    ensures SliceAsWritten(rows, offset, size).Ok? ==> forall f :: f in SliceAsWritten(rows, offset, size).value.content ==> f in rows
  {
    if offset <= |rows| {
      var c := rows[offset..Min(offset + size, |rows|)];
      forall f | f in c ensures f in rows {
        var i :| 0 <= i < |c| && c[i] == f;
        assert f == rows[offset + i];
      }
    }
  }

  /** Wherever the code as written returns a page, it is the intended one. */
  lemma SliceAgrees(rows: seq<RuleFields>, offset: int, size: int)
    requires offset >= 0 && size >= 1
    ensures SliceAsWritten(rows, offset, size).Ok? ==> SliceAsWritten(rows, offset, size).value == Slice(rows, offset, size)
  {
  }

  /** Two consecutive pages together are the page that spans both. */
  lemma {:induction false} SlicesJoin(rows: seq<RuleFields>, offset: int, a: int, b: int)
    requires offset >= 0 && a >= 1 && b >= 1
    ensures Slice(rows, offset, a).content + Slice(rows, offset + a, b).content == Slice(rows, offset, a + b).content
  {
    var x := Slice(rows, offset, a).content;
    var y := Slice(rows, offset + a, b).content;
    var z := Slice(rows, offset, a + b).content;
    assert |x + y| == |z|;
    forall i | 0 <= i < |z| ensures (x + y)[i] == z[i] {
      if i >= |x| {
        assert (x + y)[i] == y[i - |x|];
      }
    }
  }

  // ---------------------------------------------------------------------
  // Queries
  // ---------------------------------------------------------------------

  /** The repository query `getMappingRules` runs. */
  datatype Query = NameContains(name: string) | ActiveIs(active: bool) | AllRules

  /**
   * `getMappingRules(pageable, nameFilter, isActiveFilter)`: a name filter
   * wins (with or without a status filter), then a status filter, then all
   * rules.
   */
  function ChooseQuery(nameFilter: Option<string>, isActiveFilter: Option<bool>): (q: Query)
    ensures q.NameContains? <==> nameFilter.Some?
    ensures q.NameContains? ==> q.name == nameFilter.value
    ensures q.ActiveIs? <==> nameFilter.None? && isActiveFilter.Some?
    ensures q.ActiveIs? ==> q.active == isActiveFilter.value
  {
    if nameFilter.Some? && isActiveFilter.Some? then NameContains(nameFilter.value)
    else if nameFilter.Some? then NameContains(nameFilter.value)
    else if isActiveFilter.Some? then ActiveIs(isActiveFilter.value)
    else AllRules
  }

  /** Whether a stored rule answers a query (`findByNameContainingIgnoreCase`, `findByIsActive`, `findAll`). */
  predicate Answers(q: Query, f: RuleFields) {
    match q
    case NameContains(name) => f.name.Some? && Contains(ToUpper(f.name.value), ToUpper(name))
    case ActiveIs(active) => f.isActive == Some(active)
    case AllRules => true
  }

  /** The rules a query returns, in storage order (paging and sorting are left to the repository). */
  function QueryResult(rows: seq<RuleFields>, q: Query): seq<RuleFields> {
    RulesWhere(rows, (f: RuleFields) => Answers(q, f))
  }

  /** With both filters given, the status filter is ignored. */
  lemma StatusIgnoredWithName(rows: seq<RuleFields>, name: string, active: bool)
    ensures QueryResult(rows, ChooseQuery(Some(name), Some(active))) == QueryResult(rows, ChooseQuery(Some(name), None))
    ensures forall f :: f in QueryResult(rows, ChooseQuery(None, Some(active))) <==> f in rows && f.isActive == Some(active)
  {
  }

  // ---------------------------------------------------------------------
  // Lookup
  // ---------------------------------------------------------------------

  /** The rule `id` in the scope of `clientId`: `findByIdAndClient_Id` with a client context, `findById` without. */
  predicate InScope(f: RuleFields, id: int, clientId: Option<int>) {
    f.id == Some(id) && (clientId.None? || f.client == clientId)
  }

  /** The index of the first stored rule `id` in the scope of `clientId`. */
  function FindIndex(rows: seq<RuleFields>, id: int, clientId: Option<int>): (r: Option<nat>)
    ensures r.Some? ==> r.value < |rows| && InScope(rows[r.value], id, clientId)
                        && forall j :: 0 <= j < r.value ==> !InScope(rows[j], id, clientId)
    ensures r.None? ==> forall j :: 0 <= j < |rows| ==> !InScope(rows[j], id, clientId)
    decreases |rows|
  {
    if rows == [] then None
    else if InScope(rows[0], id, clientId) then Some(0)
    else match FindIndex(rows[1..], id, clientId)
      case None => None
      case Some(k) => Some(k + 1)
  }

  /** The rules left after `deleteById(id)`. */
  function WithoutId(rows: seq<RuleFields>, id: int): seq<RuleFields> {
    RulesWhere(rows, (f: RuleFields) => f.id != Some(id))
  }

  /**
   * The stored rule after `updateMappingRule` copied `details` onto it with
   * the setters, in the order of the code.
   */
  function Updated(f: RuleFields, d: RuleFields): RuleFields {
    var named := f.(name := d.name, description := d.description);
    var routed := WithDatabaseField(WithXmlPath(named, XmlPathOf(d)), DatabaseFieldOf(d));
    routed.(transformation := d.transformation, required := d.required, defaultValue := d.defaultValue,
            priority := d.priority, sourceField := d.sourceField, targetField := d.targetField,
            validationRule := d.validationRule, isActive := d.isActive, tableName := d.tableName,
            dataType := d.dataType, isAttribute := d.isAttribute, xsdElement := d.xsdElement)
  }

  /**
   * An update replaces every copied field, null ones included: the result
   * keeps only the stored rule's id, client and interface, and reads the same
   * path and database field as the details.
   */
  lemma UpdateReplaces(f: RuleFields, g: RuleFields, d: RuleFields)
    requires f.id == g.id && f.client == g.client && f.interfaceEntity == g.interfaceEntity
    ensures Updated(f, d) == Updated(g, d)
    ensures Updated(f, d).id == f.id && Updated(f, d).client == f.client
    ensures XmlPathOf(Updated(f, d)) == XmlPathOf(d) && DatabaseFieldOf(Updated(f, d)) == DatabaseFieldOf(d)
    ensures Updated(f, d).sourceField == d.sourceField && Updated(f, d).targetField == d.targetField
  {
  }

  class MappingRuleServiceImpl {
    /** The stored rules. */
    var rows: seq<RuleFields>

    constructor(stored: seq<RuleFields>)
      ensures rows == stored
    {
      rows := stored;
    }

    /** `getMappingRuleById(id)`: the rule in the scope of the client context. */
    function GetMappingRuleById(id: int, clientId: Option<int>): (r: Option<RuleFields>)
      reads this
      ensures r.Some? ==> r.value in rows && InScope(r.value, id, clientId)
      ensures r.None? ==> forall f :: f in rows ==> !InScope(f, id, clientId)
    {
      match FindIndex(rows, id, clientId)
      case None => None
      case Some(i) => Some(rows[i])
    }

    /**
     * `createMappingRule(rule)`: a rule without a client gets the client of
     * the context, when there is one; the rule is then stored.
     */
    method CreateMappingRule(rule: MappingRule, context: Option<int>) returns (saved: RuleFields)
      modifies this, rule
      ensures saved == old(rule.fields).(client := if old(rule.fields.client).None? then context else old(rule.fields.client))
      ensures rule.fields == saved && rows == old(rows) + [saved]
    {
      if rule.fields.client.None? && context.Some? {
        rule.fields := rule.fields.(client := context);
      }
      rows := rows + [rule.fields];
      saved := rule.fields;
    }

    /**
     * `updateMappingRule(id, details)`: the rule in scope is loaded, every
     * field of `details` is copied onto it and it is stored again; without a
     * rule in scope the update fails.
     */
    method UpdateMappingRule(id: int, details: RuleFields, context: Option<int>) returns (r: Result<RuleFields, string>)
      modifies this
      ensures FindIndex(old(rows), id, context).None? ==> r == Err(NOT_FOUND + IntToString(id)) && rows == old(rows)
      ensures FindIndex(old(rows), id, context).Some? ==>
                var i := FindIndex(old(rows), id, context).value;
                r == Ok(Updated(old(rows)[i], details)) && rows == old(rows)[i := Updated(old(rows)[i], details)]
    {
      var found := FindIndex(rows, id, context);
      if found.None? {
        return Err(NOT_FOUND + IntToString(id));
      }
      var i := found.value;
      var rule := new MappingRule.Load(rows[i]);
      rule.fields := rule.fields.(name := details.name);
      rule.fields := rule.fields.(description := details.description);
      rule.SetXmlPath(XmlPathOf(details));
      rule.SetDatabaseField(DatabaseFieldOf(details));
      rule.fields := rule.fields.(transformation := details.transformation);
      rule.fields := rule.fields.(required := details.required);
      rule.fields := rule.fields.(defaultValue := details.defaultValue);
      rule.fields := rule.fields.(priority := details.priority);
      rule.fields := rule.fields.(sourceField := details.sourceField);
      rule.fields := rule.fields.(targetField := details.targetField);
      rule.fields := rule.fields.(validationRule := details.validationRule);
      rule.fields := rule.fields.(isActive := details.isActive);
      rule.fields := rule.fields.(tableName := details.tableName);
      rule.fields := rule.fields.(dataType := details.dataType);
      rule.fields := rule.fields.(isAttribute := details.isAttribute);
      rule.fields := rule.fields.(xsdElement := details.xsdElement);
      rows := rows[i := rule.fields];
      r := Ok(rule.fields);
    }

    /**
     * `deleteMappingRule(id)`: with a client context the rule is deleted only
     * when that client owns it; without one it is deleted unconditionally.
     */
    method DeleteMappingRule(id: int, context: Option<int>)
      modifies this
      ensures rows == if context.Some? && FindIndex(old(rows), id, context).None? then old(rows) else WithoutId(old(rows), id)
      ensures forall f :: f in rows <==> f in old(rows) && (f.id != Some(id) || (context.Some? && FindIndex(old(rows), id, context).None?))
    {
      if context.Some? {
        if FindIndex(rows, id, context).Some? {
          rows := WithoutId(rows, id);
        }
      } else {
        rows := WithoutId(rows, id);
      }
    }

    /**
     * `findByTableNameAndClient_Id(tableName, clientId, pageable)`: the
     * page of that client's rules for that table, cut as written, so an
     * offset past the end throws.
     */
    function FindByTableNameAndClientId(tableName: Option<string>, clientId: int, offset: int, size: int)
      : (r: Result<Page, string>)
      requires offset >= 0 && size >= 1
      reads this
      ensures var owned := TableRules(rows, tableName, clientId);
              (r.Err? <==> offset > |owned|) && (r.Err? ==> r.error == ILLEGAL_RANGE)
              && (r.Ok? ==> r.value.total == |owned| && r.value.content == owned[offset..Min(offset + size, |owned|)])
      ensures r.Ok? ==> r.value == Slice(TableRules(rows, tableName, clientId), offset, size)
      ensures r.Ok? ==> forall f :: f in r.value.content ==> f in rows && f.tableName == tableName && f.client == Some(clientId)
    {
      var owned := TableRules(rows, tableName, clientId);
      PageFrom(owned, offset, size);
      SliceAgrees(owned, offset, size);
      SliceAsWritten(owned, offset, size)
    }

    /**
     * `getActiveMappingRules(interfaceId, pageable)`: the page of the active
     * rules of the client that owns the interface, cut as written; an unknown
     * interface fails, and so does an interface without a client.
     */
    function GetActiveMappingRules(interfaces: map<int, Interface>, interfaceId: int, offset: int, size: int)
      : (r: Result<Page, string>)
      requires offset >= 0 && size >= 1
      reads this
      ensures interfaceId !in interfaces ==> r == Err(INTERFACE_NOT_FOUND + IntToString(interfaceId))
      ensures interfaceId in interfaces && interfaces[interfaceId].client.None? ==> r == Err(NULL_POINTER)
      ensures interfaceId in interfaces && interfaces[interfaceId].client.Some? ==>
                var active := ActiveRules(rows, interfaces[interfaceId].client.value);
                (r.Err? <==> offset > |active|) && (r.Err? ==> r.error == ILLEGAL_RANGE)
                && (r.Ok? ==> r.value.total == |active| && r.value.content == active[offset..Min(offset + size, |active|)]
                              && r.value == Slice(active, offset, size))
      ensures r.Ok? ==> interfaceId in interfaces && interfaces[interfaceId].client.Some?
                        && forall f :: f in r.value.content ==>
                             f in rows && f.client == interfaces[interfaceId].client && f.isActive == Some(true)
    {
      if interfaceId !in interfaces then Err(INTERFACE_NOT_FOUND + IntToString(interfaceId))
      else
        var owner := interfaces[interfaceId].client;
        if owner.None? then Err(NULL_POINTER)
        else
          var active := ActiveRules(rows, owner.value);
          PageFrom(active, offset, size);
          SliceAgrees(active, offset, size);
          SliceAsWritten(active, offset, size)
    }
  }

  /** The repository query `findByTableNameAndClient_Id`: the stored rules of that table and client. */
  function TableRules(rows: seq<RuleFields>, tableName: Option<string>, clientId: int): (r: seq<RuleFields>)
    ensures forall f :: f in r <==> f in rows && f.tableName == tableName && f.client == Some(clientId)
  {
    RulesWhere(rows, (f: RuleFields) => f.tableName == tableName && f.client == Some(clientId))
  }

  /** The repository query `findByClient_IdAndIsActive(clientId, true)`. */
  function ActiveRules(rows: seq<RuleFields>, clientId: int): (r: seq<RuleFields>)
    ensures forall f :: f in r <==> f in rows && f.client == Some(clientId) && f.isActive == Some(true)
  {
    RulesWhere(rows, (f: RuleFields) => f.client == Some(clientId) && f.isActive == Some(true))
  }

  /** With ids unique, a scoped delete removes nothing but the client's own rule. */
  lemma ScopedDeleteRemovesOwnRule(rows: seq<RuleFields>, id: int, clientId: int, f: RuleFields)
    requires forall i, j :: 0 <= i < j < |rows| ==> rows[i].id != rows[j].id || rows[i].id.None?
    requires FindIndex(rows, id, Some(clientId)).Some?
    requires f in rows && f !in WithoutId(rows, id)
    ensures f.client == Some(clientId)
  {
    var k := FindIndex(rows, id, Some(clientId)).value;
    var i :| 0 <= i < |rows| && rows[i] == f;
    assert rows[i].id == Some(id) == rows[k].id;
  }
}
