/**
 * `MappingRule`: how one location of an XML document maps to one database
 * column. Two pairs of fields name the same thing (`xmlPath`/`sourceField`
 * and `databaseField`/`targetField`): the accessors fall back from the first
 * field of a pair to the second, and the setters also fill the second field
 * while it is still null.
 */
module MappingRules {
  import opened Wrappers

  /** The `Interface` entity a rule points to, reduced to its id. */
  datatype InterfaceRef = InterfaceRef(id: Option<int>)

  /**
   * A rule's field values. `id` and `client` come from the entity base class,
   * which holds the generated id and the owning client (reduced to its id).
   */
  datatype RuleFields = RuleFields(
    id: Option<int>, client: Option<int>,
    name: Option<string>, description: Option<string>,
    xmlPath: Option<string>, databaseField: Option<string>,
    transformation: Option<string>, required: Option<bool>, defaultValue: Option<string>,
    priority: Option<int>, interfaceEntity: Option<InterfaceRef>,
    sourceField: Option<string>, targetField: Option<string>, validationRule: Option<string>,
    isActive: Option<bool>, tableName: Option<string>, dataType: Option<string>,
    isAttribute: Option<bool>, xsdElement: Option<string>)

  /** The fields of `new MappingRule()`: all null except `isAttribute`, which starts as false. */
  const NEW_RULE: RuleFields := RuleFields(
    None, None, None, None, None, None, None, None, None, None, None,
    None, None, None, None, None, None, Some(false), None)

  /** `getXmlPath()`: the XML path, or `sourceField` when the path is null. */
  function XmlPathOf(f: RuleFields): (r: Option<string>)
    ensures r.Some? <==> f.xmlPath.Some? || f.sourceField.Some?
    ensures f.xmlPath.Some? ==> r == f.xmlPath
    ensures f.xmlPath.None? ==> r == f.sourceField
  {
    if f.xmlPath.Some? then f.xmlPath else f.sourceField
  }

  /** `getDatabaseField()`: the database field, or `targetField` when it is null. */
  function DatabaseFieldOf(f: RuleFields): (r: Option<string>)
    ensures r.Some? <==> f.databaseField.Some? || f.targetField.Some?
    ensures f.databaseField.Some? ==> r == f.databaseField
    ensures f.databaseField.None? ==> r == f.targetField
  {
    if f.databaseField.Some? then f.databaseField else f.targetField
  }

  /** `isAttribute()`: a null flag reads as false. */
  predicate IsAttribute(f: RuleFields) {
    f.isAttribute == Some(true)
  }

  /** `isRequired()`: a null flag reads as false. */
  predicate IsRequired(f: RuleFields) {
    f.required == Some(true)
  }

  /** `getInterfaceId()`: the referenced interface's id, null without an interface. */
  function InterfaceIdOf(f: RuleFields): (r: Option<int>)
    ensures f.interfaceEntity.None? ==> r.None?
    ensures f.interfaceEntity.Some? ==> r == f.interfaceEntity.value.id
  {
    match f.interfaceEntity
    case None => None
    case Some(e) => e.id
  }

  /** The fields after `setXmlPath(p)`. */
  function WithXmlPath(f: RuleFields, p: Option<string>): RuleFields {
    f.(xmlPath := p, sourceField := if f.sourceField.None? then p else f.sourceField)
  }

  /** The fields after `setDatabaseField(d)`. */
  function WithDatabaseField(f: RuleFields, d: Option<string>): RuleFields {
    f.(databaseField := d, targetField := if f.targetField.None? then d else f.targetField)
  }

  /** The fields after `setInterfaceId(id)`: a null id leaves the rule as it was. */
  function WithInterfaceId(f: RuleFields, id: Option<int>): RuleFields {
    if id.None? then f else f.(interfaceEntity := Some(InterfaceRef(id)))
  }

  /**
   * Reading the path back after `setXmlPath(p)` gives `p`, or the old
   * `sourceField` when `p` is null; `sourceField` changes only while it is
   * null, so the first path ever set stays there.
   */
  lemma XmlPathRoundTrip(f: RuleFields, p: Option<string>, q: Option<string>)
    ensures XmlPathOf(WithXmlPath(f, p)) == if p.Some? then p else f.sourceField
    ensures f.sourceField.Some? ==> WithXmlPath(f, p).sourceField == f.sourceField
    ensures p.Some? ==> WithXmlPath(WithXmlPath(NEW_RULE, p), q).sourceField == p
  {
  }

  /** The same for `setDatabaseField` and `targetField`. */
  lemma DatabaseFieldRoundTrip(f: RuleFields, d: Option<string>, e: Option<string>)
    ensures DatabaseFieldOf(WithDatabaseField(f, d)) == if d.Some? then d else f.targetField
    ensures f.targetField.Some? ==> WithDatabaseField(f, d).targetField == f.targetField
    ensures d.Some? ==> WithDatabaseField(WithDatabaseField(NEW_RULE, d), e).targetField == d
  {
  }

  /** `getInterfaceId()` after `setInterfaceId(id)` reads `id` back, and a null id changes nothing. */
  lemma InterfaceIdRoundTrip(f: RuleFields, id: Option<int>)
    ensures id.Some? ==> InterfaceIdOf(WithInterfaceId(f, id)) == id
    ensures id.None? ==> WithInterfaceId(f, id) == f
  {
  }

  /**
   * The stored rules satisfying `p`, in storage order: the result of a derived
   * repository query such as `findByClient_Id`.
   */
  function RulesWhere(rows: seq<RuleFields>, p: RuleFields -> bool): (r: seq<RuleFields>)
    ensures |r| <= |rows|
    ensures forall x :: x in r <==> x in rows && p(x)
    decreases |rows|
  {
    if rows == [] then []
    else RulesWhere(rows[..|rows| - 1], p) + (if p(rows[|rows| - 1]) then [rows[|rows| - 1]] else [])
  }

  /** The entity, with the field-by-field setters the services call. */
  class MappingRule {
    var fields: RuleFields

    /** `new MappingRule()`. */
    constructor()
      ensures fields == NEW_RULE
    {
      fields := NEW_RULE;
    }

    /** An entity loaded from the repository with the stored values. */
    constructor Load(f: RuleFields)
      ensures fields == f
    {
      fields := f;
    }

    function GetXmlPath(): Option<string>
      reads this
    {
      XmlPathOf(fields)
    }

    function GetDatabaseField(): Option<string>
      reads this
    {
      DatabaseFieldOf(fields)
    }

    function GetInterfaceId(): Option<int>
      reads this
    {
      InterfaceIdOf(fields)
    }

    /** `setXmlPath(p)`: sets the path, and `sourceField` too while that is null. */
    method SetXmlPath(p: Option<string>)
      modifies this
      ensures fields == WithXmlPath(old(fields), p)
      ensures GetXmlPath() == if p.Some? then p else old(fields.sourceField)
    {
      fields := fields.(xmlPath := p);
      if fields.sourceField.None? {
        fields := fields.(sourceField := p);
      }
    }

    /** `setDatabaseField(d)`: sets the field, and `targetField` too while that is null. */
    method SetDatabaseField(d: Option<string>)
      modifies this
      ensures fields == WithDatabaseField(old(fields), d)
      ensures GetDatabaseField() == if d.Some? then d else old(fields.targetField)
    {
      fields := fields.(databaseField := d);
      if fields.targetField.None? {
        fields := fields.(targetField := d);
      }
    }

    /** `setAttribute(b)`. */
    method SetAttribute(b: bool)
      modifies this
      ensures fields == old(fields).(isAttribute := Some(b))
      ensures IsAttribute(fields) == b
    {
      fields := fields.(isAttribute := Some(b));
    }

    /** `setInterfaceId(id)`: a non-null id points the rule to a new interface entity with that id. */
    method SetInterfaceId(id: Option<int>)
      modifies this
      ensures fields == WithInterfaceId(old(fields), id)
      ensures id.Some? ==> GetInterfaceId() == id
    {
      if id.Some? {
        fields := fields.(interfaceEntity := Some(InterfaceRef(id)));
      }
    }
  }
}
