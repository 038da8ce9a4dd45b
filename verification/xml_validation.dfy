/**
 * `XmlValidationServiceImpl`: structural and content checks on a parsed XML
 * document. Each check returns whether the document passed and leaves the
 * reason in `validationErrorMessage` (`None` after a pass).
 */
module XmlValidation {
  import opened Wrappers
  import opened Text
  import opened XmlDom

  const NO_ROOT: string := "XML document has no root element"
  const NO_NAMESPACE: string := "XML document must have a namespace declaration"
  const NO_VERSION: string := "Root element must have a version attribute"
  const UNKNOWN_TYPE: string := "Unknown interface type: "
  const CONTENT_FAILED: string := "XML content validation failed: "

  /**
   * What one interface type requires: four elements under the root, at least
   * one item element, and three elements under each item.
   */
  datatype ContentRules = ContentRules(required: seq<string>, itemTag: string, itemRequired: seq<string>, noItems: string)

  /** The rules of the three known interface types, by their upper-cased name. */
  function RulesFor(upperType: string): (r: Option<ContentRules>)
    ensures r.Some? ==> |r.value.required| == 4 && |r.value.itemRequired| == 3
    ensures r.Some? <==> upperType in {"INVOICE", "ORDER", "SHIPMENT"}
  {
    if upperType == "INVOICE" then
      Some(ContentRules(["InvoiceNumber", "InvoiceDate", "DueDate", "TotalAmount"], "LineItem",
                        ["ItemNumber", "Quantity", "UnitPrice"], "Invoice must contain at least one line item"))
    else if upperType == "ORDER" then
      Some(ContentRules(["OrderNumber", "OrderDate", "CustomerNumber", "TotalAmount"], "OrderItem",
                        ["ProductCode", "Quantity", "UnitPrice"], "Order must contain at least one order item"))
    else if upperType == "SHIPMENT" then
      Some(ContentRules(["ShipmentNumber", "ShipDate", "CarrierCode", "TrackingNumber"], "ShipmentItem",
                        ["ItemNumber", "Quantity", "Weight"], "Shipment must contain at least one shipment item"))
    else None
  }

  /** The reason a document fails the structural check: no root, no namespace, or no `version` attribute on the root. */
  function StructureError(doc: Document): Option<string> {
    match doc.root
    case None => Some(NO_ROOT)
    case Some(root) =>
      if root.namespaceURI.None? || root.namespaceURI.value == "" then Some(NO_NAMESPACE)
      else if "version" !in root.attributes then Some(NO_VERSION)
      else None
  }

  /** The structural check fails with exactly one of its three messages, and passes iff all three requirements hold. */
  lemma StructureErrorMeaning(doc: Document)
    ensures StructureError(doc).None? <==>
              doc.root.Some? && doc.root.value.namespaceURI.Some? && doc.root.value.namespaceURI.value != ""
              && "version" in doc.root.value.attributes
    ensures StructureError(doc).Some? ==> StructureError(doc).value in {NO_ROOT, NO_NAMESPACE, NO_VERSION}
    ensures doc.root.None? ==> StructureError(doc) == Some(NO_ROOT)
  {
  }

  /** What `checkRequiredElement` finds for a name: no such element, a first one with blank text, or a filled one. */
  datatype Probe = Missing | Blank | Filled

  /** The probe of `name` under `parent`: the first element of that name, with its text trimmed. */
  function ProbeOf(parent: Element, name: string): Probe {
    var elements := ByTag(parent, name);
    if |elements| == 0 then Missing
    else if IsJavaBlank(TextContent(elements[0])) then Blank
    else Filled
  }

  /** The element `name` under `parent` is present, and the first one has non-blank text. */
  predicate Present(parent: Element, name: string) {
    ByTag(parent, name) != [] && !IsJavaBlank(TextContent(ByTag(parent, name)[0]))
  }

  lemma FilledIffPresent(parent: Element, name: string)
    ensures ProbeOf(parent, name) == Filled <==> Present(parent, name)
  {
  }

  /** `checkRequiredElement`'s contribution for a probe: a missing message, an empty message, or nothing. */
  function Messages(name: string, probe: Probe): (r: seq<string>)
    ensures |r| <= 1 && (r == [] <==> probe == Filled)
  {
    match probe
    case Missing => ["Required element '" + name + "' is missing"]
    case Blank => ["Element '" + name + "' cannot be empty"]
    case Filled => []
  }

  /** The messages for `names`, each with what `probe` finds for it, in order. */
  function Errors(names: seq<string>, probe: string -> Probe): seq<string>
    decreases |names|
  {
    if names == [] then []
    else Errors(names[..|names| - 1], probe) + Messages(names[|names| - 1], probe(names[|names| - 1]))
  }

  /** The probe of each name under `parent`. */
  function ProbeFn(parent: Element): string -> Probe {
    name => ProbeOf(parent, name)
  }

  /** The messages of the required-element checks of `names` on `parent`, in order. */
  function ElementErrors(parent: Element, names: seq<string>): seq<string> {
    Errors(names, ProbeFn(parent))
  }

  /** The messages of each item, item after item. */
  function ConcatMap(items: seq<Element>, f: Element -> seq<string>): seq<string>
    decreases |items|
  {
    if items == [] then [] else ConcatMap(items[..|items| - 1], f) + f(items[|items| - 1])
  }

  /** The item checks of `names`, as a function of the item. */
  function ItemFn(names: seq<string>): Element -> seq<string> {
    item => ElementErrors(item, names)
  }

  /** Every message the content check of `rules` collects on `root`. */
  function ContentErrors(root: Element, rules: ContentRules): seq<string> {
    var items := ByTag(root, rules.itemTag);
    ElementErrors(root, rules.required)
    + if items == [] then [rules.noItems] else ConcatMap(items, ItemFn(rules.itemRequired))
  }

  /** The messages are empty exactly when every name's probe is filled, and there is at most one per name. */
  lemma {:induction false} ErrorsEmpty(names: seq<string>, probe: string -> Probe)
    ensures Errors(names, probe) == [] <==> forall i :: 0 <= i < |names| ==> probe(names[i]) == Filled
    ensures |Errors(names, probe)| <= |names|
    decreases |names|
  {
    if names != [] {
      var init := names[..|names| - 1];
      ErrorsEmpty(init, probe);
      assert forall i :: 0 <= i < |init| ==> init[i] == names[i];
    }
  }

  /** One more name adds its messages at the end. */
  lemma ErrorsStep(names: seq<string>, i: nat, probe: string -> Probe)
    requires i < |names|
    ensures Errors(names[..i + 1], probe) == Errors(names[..i], probe) + Messages(names[i], probe(names[i]))
  {
    assert names[..i + 1][..i] == names[..i];
  }

  /** One more item adds its messages at the end. */
  lemma ConcatMapStep(items: seq<Element>, k: nat, f: Element -> seq<string>)
    requires k < |items|
    ensures ConcatMap(items[..k + 1], f) == ConcatMap(items[..k], f) + f(items[k])
  {
    assert items[..k + 1][..k] == items[..k];
  }

  lemma AppendItem(errors: seq<string>, done: seq<string>, item: Element, names: seq<string>)
    ensures errors + done + ElementErrors(item, names) == errors + (done + ItemFn(names)(item))
  {
  }

  /** A concatenation is empty exactly when every part is. */
  lemma {:induction false} ConcatMapEmpty(items: seq<Element>, f: Element -> seq<string>)
    ensures ConcatMap(items, f) == [] <==> forall k :: 0 <= k < |items| ==> f(items[k]) == []
    decreases |items|
  {
    if items != [] {
      var init := items[..|items| - 1];
      ConcatMapEmpty(init, f);
      assert forall k :: 0 <= k < |init| ==> init[k] == items[k];
    }
  }

  /** The checks of `names` under `parent` report nothing exactly when every one of those elements is present. */
  lemma ElementErrorsEmpty(parent: Element, names: seq<string>)
    ensures ElementErrors(parent, names) == [] <==> forall i :: 0 <= i < |names| ==> Present(parent, names[i])
  {
    ErrorsEmpty(names, ProbeFn(parent));
    forall i | 0 <= i < |names|
      ensures ProbeFn(parent)(names[i]) == Filled <==> Present(parent, names[i])
    {
      FilledIffPresent(parent, names[i]);
    }
  }

  /**
   * The content check passes exactly when every required element is present
   * and non-blank, there is at least one item, and every item has its three
   * elements present and non-blank.
   */
  lemma ContentValidIff(root: Element, rules: ContentRules)
    ensures ContentErrors(root, rules) == [] <==>
              (forall i :: 0 <= i < |rules.required| ==> Present(root, rules.required[i]))
              && ByTag(root, rules.itemTag) != []
              && (forall k :: 0 <= k < |ByTag(root, rules.itemTag)| ==>
                    forall i :: 0 <= i < |rules.itemRequired| ==> Present(ByTag(root, rules.itemTag)[k], rules.itemRequired[i]))
  {
    var items := ByTag(root, rules.itemTag);
    ElementErrorsEmpty(root, rules.required);
    ConcatMapEmpty(items, ItemFn(rules.itemRequired));
    forall k | 0 <= k < |items|
      ensures ItemFn(rules.itemRequired)(items[k]) == [] <==>
                forall i :: 0 <= i < |rules.itemRequired| ==> Present(items[k], rules.itemRequired[i])
    {
      ElementErrorsEmpty(items[k], rules.itemRequired);
    }
  }

  /** A document without items fails with the type's "at least one" message among its errors. */
  lemma NoItemsReported(root: Element, rules: ContentRules)
    requires ByTag(root, rules.itemTag) == []
    ensures rules.noItems in ContentErrors(root, rules)
  {
    var e := ElementErrors(root, rules.required);
    assert ContentErrors(root, rules)[|e|] == rules.noItems;
  }

  /**
   * The reason a document fails the content check for `interfaceType`, `None`
   * when it passes; `exceptionMessage` is the message of the exception a null
   * type or a missing root raises inside the check.
   */
  function ContentMessage(doc: Document, interfaceType: Option<string>, exceptionMessage: string): Option<string> {
    if interfaceType.None? then Some(CONTENT_FAILED + exceptionMessage)
    else match RulesFor(ToUpper(interfaceType.value))
      case None => Some(UNKNOWN_TYPE + interfaceType.value)
      case Some(rules) =>
        if doc.root.None? then Some(CONTENT_FAILED + exceptionMessage)
        else
          var errors := ContentErrors(doc.root.value, rules);
          if errors == [] then None else Some(Join(errors, ", "))
  }

  /** The content check passes iff the type is known, the root exists and no required element is missing or blank. */
  lemma ContentMessageMeaning(doc: Document, interfaceType: Option<string>, exceptionMessage: string)
    ensures ContentMessage(doc, interfaceType, exceptionMessage).None? <==>
              interfaceType.Some? && RulesFor(ToUpper(interfaceType.value)).Some? && doc.root.Some?
              && ContentErrors(doc.root.value, RulesFor(ToUpper(interfaceType.value)).value) == []
  {
  }

  class XmlValidationServiceImpl {
    var validationErrorMessage: Option<string>

    constructor()
      ensures validationErrorMessage.None?
    {
      validationErrorMessage := None;
    }

    /** `getValidationErrorMessage()`. */
    function GetValidationErrorMessage(): Option<string>
      reads this
    {
      validationErrorMessage
    }

    /** `validateXmlStructure(document)`: passes iff there is no structural error, whose message it keeps. */
    method ValidateXmlStructure(doc: Document) returns (ok: bool)
      modifies this
      ensures ok <==> StructureError(doc).None?
      ensures validationErrorMessage == StructureError(doc)
    {
      if doc.root.None? {
        validationErrorMessage := Some(NO_ROOT);
        return false;
      }
      var root := doc.root.value;
      if root.namespaceURI.None? || root.namespaceURI.value == "" {
        validationErrorMessage := Some(NO_NAMESPACE);
        return false;
      }
      if "version" !in root.attributes {
        validationErrorMessage := Some(NO_VERSION);
        return false;
      }
      validationErrorMessage := None;
      return true;
    }

    /**
     * `validateXmlContent(document, interfaceType)`. A null type or a
     * document without a root throws inside the check; the message of that
     * exception is the `exceptionMessage` parameter.
     */
    method ValidateXmlContent(doc: Document, interfaceType: Option<string>, exceptionMessage: string) returns (ok: bool)
      modifies this
      ensures interfaceType.None? ==> !ok && validationErrorMessage == Some(CONTENT_FAILED + exceptionMessage)
      ensures interfaceType.Some? && RulesFor(ToUpper(interfaceType.value)).None? ==>
                !ok && validationErrorMessage == Some(UNKNOWN_TYPE + interfaceType.value)
      ensures interfaceType.Some? && RulesFor(ToUpper(interfaceType.value)).Some? && doc.root.None? ==>
                !ok && validationErrorMessage == Some(CONTENT_FAILED + exceptionMessage)
      ensures interfaceType.Some? && RulesFor(ToUpper(interfaceType.value)).Some? && doc.root.Some? ==>
                var errors := ContentErrors(doc.root.value, RulesFor(ToUpper(interfaceType.value)).value);
                (ok <==> errors == [])
                && validationErrorMessage == if errors == [] then None else Some(Join(errors, ", "))
      ensures (ok <==> ContentMessage(doc, interfaceType, exceptionMessage).None?)
              && validationErrorMessage == ContentMessage(doc, interfaceType, exceptionMessage)
    {
      if interfaceType.None? {
        validationErrorMessage := Some(CONTENT_FAILED + exceptionMessage);
        return false;
      }
      var rules := RulesFor(ToUpper(interfaceType.value));
      if rules.None? {
        validationErrorMessage := Some(UNKNOWN_TYPE + interfaceType.value);
        return false;
      }
      if doc.root.None? {
        validationErrorMessage := Some(CONTENT_FAILED + exceptionMessage);
        return false;
      }
      var errors := CheckContent(doc.root.value, rules.value);
      if errors != [] {
        validationErrorMessage := Some(Join(errors, ", "));
        return false;
      }
      validationErrorMessage := None;
      return true;
    }
  }

  /** `checkRequiredElement(parent, name, errors)`: appends the element's message, if any. */
  method CheckRequiredElement(parent: Element, name: string, errors: seq<string>) returns (r: seq<string>)
    ensures r == errors + Messages(name, ProbeOf(parent, name))
  {
    var elements := ByTag(parent, name);
    if |elements| == 0 {
      r := errors + ["Required element '" + name + "' is missing"];
    } else if JavaTrim(TextContent(elements[0])) == "" {
      JavaBlankIff(TextContent(elements[0]));
      r := errors + ["Element '" + name + "' cannot be empty"];
    } else {
      JavaBlankIff(TextContent(elements[0]));
      r := errors;
    }
  }

  /** The required-element checks of `names` on `parent`, in order. */
  method CheckRequiredElements(parent: Element, names: seq<string>, errors: seq<string>) returns (r: seq<string>)
    ensures r == errors + ElementErrors(parent, names)
  {
    r := errors;
    for i := 0 to |names|
      invariant r == errors + Errors(names[..i], ProbeFn(parent))
    {
      r := CheckRequiredElement(parent, names[i], r);
      ErrorsStep(names, i, ProbeFn(parent));
    }
    assert names[..|names|] == names;
  }

  /**
   * `validateInvoiceContent`, `validateOrderContent` and
   * `validateShipmentContent`, which differ only in their rules: the four
   * root elements, then one message for no items or each item's three
   * elements.
   */
  method CheckContent(root: Element, rules: ContentRules) returns (errors: seq<string>)
    ensures errors == ContentErrors(root, rules)
  {
    errors := CheckRequiredElements(root, rules.required, []);
    var items := ByTag(root, rules.itemTag);
    if |items| == 0 {
      errors := errors + [rules.noItems];
    } else {
      errors := CheckItems(items, rules.itemRequired, errors);
    }
  }

  /** The loop over the item elements: each item's required-element checks, in document order. */
  method CheckItems(items: seq<Element>, names: seq<string>, errors: seq<string>) returns (r: seq<string>)
    ensures r == errors + ConcatMap(items, ItemFn(names))
  {
    r := errors;
    for i := 0 to |items|
      invariant r == errors + ConcatMap(items[..i], ItemFn(names))
    {
      r := CheckRequiredElements(items[i], names, r);
      ConcatMapStep(items, i, ItemFn(names));
      AppendItem(errors, ConcatMap(items[..i], ItemFn(names)), items[i], names);
    }
    assert items[..|items|] == items;
  }
}
