/**
 * `XmlProcessingStrategy`: the strategy for plain XML interfaces. It checks a
 * parsed document with the validation service, and its private helpers
 * transform text values and find or create the element a mapping rule
 * targets.
 */
module XmlStrategy {
  import opened Wrappers
  import opened Text
  import opened XmlDom
  import opened XmlValidation
  import opened Entities
  import StrategyService
  import AbstractStrategy

  /** The strategy as the selection sees it: type `XML`, priority 50. */
  const XML_STRATEGY: StrategyService.Strategy := StrategyService.Strategy("XML Document Processor", "XML", 50)

  // ---------------------------------------------------------------------
  // applyTransformation
  // ---------------------------------------------------------------------

  /** The characters `[0-9]` with index in `[lo, hi)` (Java's `\d` matches ASCII digits only). */
  predicate DigitsIn(s: string, lo: nat, hi: nat)
    requires lo <= hi <= |s|
  {
    forall i :: lo <= i < hi ==> IsDigit(s[i])
  }

  /** `value.matches("\\d{4}-\\d{2}-\\d{2}")`. */
  predicate IsIsoDate(s: string) {
    |s| == 10 && DigitsIn(s, 0, 4) && s[4] == '-' && DigitsIn(s, 5, 7) && s[7] == '-' && DigitsIn(s, 8, 10)
  }

  /** `value.matches("\\d{2}" + sep + "\\d{2}" + sep + "\\d{4}")`: month, day and year. */
  predicate IsUsDate(s: string, sep: char) {
    |s| == 10 && DigitsIn(s, 0, 2) && s[2] == sep && DigitsIn(s, 3, 5) && s[5] == sep && DigitsIn(s, 6, 10)
  }

  /** Splitting a US date at its separator gives month, day and year. */
  lemma UsDateParts(s: string, sep: char)
    requires IsUsDate(s, sep) && !IsDigit(sep)
    ensures JavaSplit(s, sep) == [s[..2], s[3..5], s[6..]]
  {
    var a, b, c := s[..2], s[3..5], s[6..];
    assert sep !in a && sep !in b && sep !in c;
    assert s == a + ([sep] + (b + ([sep] + c)));
    SplitNoSeparator(c, sep);
    SplitConcat(b, c, sep);
    SplitConcat(a, b + ([sep] + c), sep);
    assert sep in s;
  }

  /**
   * The `date` transformation: an ISO date is kept, `MM/DD/YYYY` and
   * `MM-DD-YYYY` become `YYYY-MM-DD`, and any other text is kept.
   */
  function ReformatDate(value: string): (r: string)
    ensures IsIsoDate(value) ==> r == value
    ensures !IsIsoDate(value) && (IsUsDate(value, '/') || IsUsDate(value, '-')) ==>
              IsIsoDate(r) && r[..4] == value[6..] && r[5..7] == value[..2] && r[8..] == value[3..5]
    ensures !IsIsoDate(value) && !IsUsDate(value, '/') && !IsUsDate(value, '-') ==> r == value
  {
    if IsIsoDate(value) then value
    else if IsUsDate(value, '/') then
      UsDateParts(value, '/');
      var parts := JavaSplit(value, '/');
      parts[2] + "-" + parts[0] + "-" + parts[1]
    else if IsUsDate(value, '-') then
      UsDateParts(value, '-');
      var parts := JavaSplit(value, '-');
      parts[2] + "-" + parts[0] + "-" + parts[1]
    else value
  }

  /** Reformatting a date twice is reformatting it once: the result is ISO, which is kept. */
  lemma ReformatDateIdempotent(value: string)
    ensures ReformatDate(ReformatDate(value)) == ReformatDate(value)
  {
  }

  /** A US date and an ISO date are told apart by where the first separator is. */
  lemma DateFormatsDisjoint(s: string, sep: char)
    requires IsUsDate(s, sep)
    ensures !IsIsoDate(s)
  {
    assert IsDigit(s[4]);
  }

  /** The characters the number cleaning keeps: ASCII digits, `.` and `-`. */
  predicate KeptInNumber(c: char) {
    IsDigit(c) || c == '.' || c == '-'
  }

  /**
   * `value.replaceAll("[^\\d.-]", "")`: only the kept characters remain;
   * `CleanNumberKeepsCounts` and `CleanNumberConcat` say that all of them do,
   * in order.
   */
  function CleanNumber(s: string): (r: string)
    ensures |r| <= |s|
    ensures forall i :: 0 <= i < |r| ==> KeptInNumber(r[i])
    ensures (forall i :: 0 <= i < |s| ==> KeptInNumber(s[i])) ==> r == s
    decreases |s|
  {
    if s == [] then []
    else (if KeptInNumber(s[0]) then [s[0]] else []) + CleanNumber(s[1..])
  }

  /** Every kept character remains as often as it occurs in `s`. */
  lemma {:induction false} CleanNumberKeepsCounts(s: string, c: char)
    requires KeptInNumber(c)
    ensures multiset(CleanNumber(s))[c] == multiset(s)[c]
    decreases |s|
  {
    if s != [] {
      assert s == [s[0]] + s[1..];
      CleanNumberKeepsCounts(s[1..], c);
    }
  }

  /** Cleaning works character by character: cleaning a concatenation cleans each part. */
  lemma {:induction false} CleanNumberConcat(a: string, b: string)
    ensures CleanNumber(a + b) == CleanNumber(a) + CleanNumber(b)
    decreases |a|
  {
    if a != [] {
      var head := if KeptInNumber(a[0]) then [a[0]] else [];
      assert (a + b)[0] == a[0] && (a + b)[1..] == a[1..] + b;
      assert CleanNumber(a + b) == head + CleanNumber(a[1..] + b);
      CleanNumberConcat(a[1..], b);
      assert CleanNumber(a) == head + CleanNumber(a[1..]);
    } else {
      assert a + b == b;
    }
  }

  /**
   * The private `applyTransformation(value, transformation)`: the selector
   * is matched in lower case; `uppercase`, `lowercase` and `trim` change the
   * text, `date` reformats it, `number` formats the cleaned text with two
   * decimals (`formatNumber`, `None` when parsing throws, which keeps the
   * value), and any other selector keeps the value.
   */
  function ApplyTransformation(value: string, transformation: string, formatNumber: string -> Option<string>)
    : (r: string)
    ensures var t := ToLower(transformation);
            (t == "uppercase" ==> r == ToUpper(value))
            && (t == "lowercase" ==> r == ToLower(value))
            && (t == "trim" ==> r == JavaTrim(value))
            && (t == "date" ==> r == ReformatDate(value))
            && (t == "number" && formatNumber(CleanNumber(value)).Some? ==> r == formatNumber(CleanNumber(value)).value)
            && (t == "number" && formatNumber(CleanNumber(value)).None? ==> r == value)
            && (t !in {"uppercase", "lowercase", "trim", "date", "number"} ==> r == value)
  {
    var t := ToLower(transformation);
    if t == "uppercase" then ToUpper(value)
    else if t == "lowercase" then ToLower(value)
    else if t == "trim" then JavaTrim(value)
    else if t == "date" then ReformatDate(value)
    else if t == "number" then formatNumber(CleanNumber(value)).GetOr(value)
    else value
  }

  /** The selector ignores case. */
  lemma SelectorIgnoresCase(value: string, t1: string, t2: string, formatNumber: string -> Option<string>)
    requires ToLower(t1) == ToLower(t2)
    ensures ApplyTransformation(value, t1, formatNumber) == ApplyTransformation(value, t2, formatNumber)
  {
  }

  /** `uppercase`, `lowercase`, `trim` and `date` change nothing when applied a second time. */
  lemma TransformationIdempotent(value: string, transformation: string, formatNumber: string -> Option<string>)
    requires ToLower(transformation) in {"uppercase", "lowercase", "trim", "date"}
    ensures ApplyTransformation(ApplyTransformation(value, transformation, formatNumber), transformation, formatNumber)
            == ApplyTransformation(value, transformation, formatNumber)
  {
    AbstractStrategy.UpperIdempotent(value);
    AbstractStrategy.LowerIdempotent(value);
    AbstractStrategy.TrimIdempotent(value);
    ReformatDateIdempotent(value);
  }

  lemma IsoDateParts(r: string)
    requires IsIsoDate(r)
    ensures r == r[..4] + "-" + r[5..7] + "-" + r[8..]
  {
  }

  /** A US date with either separator is rearranged to year, month and day. */
  lemma UsDateReformatted(v: string, sep: char)
    requires IsUsDate(v, sep) && (sep == '/' || sep == '-')
    ensures ReformatDate(v) == v[6..] + "-" + v[..2] + "-" + v[3..5]
  {
    DateFormatsDisjoint(v, sep);
    IsoDateParts(ReformatDate(v));
  }

  /** `MM/DD/YYYY` becomes `YYYY-MM-DD`. */
  lemma SlashDateSample(v: string)
    requires v == "03/15/2024"
    ensures ReformatDate(v) == "2024-03-15"
  {
    SampleDateShape(v, '/');
    UsDateReformatted(v, '/');
    SampleIsoDate(v[6..], v[..2], v[3..5]);
  }

  /** `MM-DD-YYYY` becomes `YYYY-MM-DD`. */
  lemma DashDateSample(v: string)
    requires v == "03-15-2024"
    ensures ReformatDate(v) == "2024-03-15"
  {
    SampleDateShape(v, '-');
    UsDateReformatted(v, '-');
    SampleIsoDate(v[6..], v[..2], v[3..5]);
  }

  lemma SampleDateShape(v: string, sep: char)
    requires v == ['0', '3', sep, '1', '5', sep, '2', '0', '2', '4']
    ensures IsUsDate(v, sep) && v[6..] == "2024" && v[..2] == "03" && v[3..5] == "15"
  {
  }

  lemma SampleIsoDate(year: string, month: string, day: string)
    requires year == "2024" && month == "03" && day == "15"
    ensures year + "-" + month + "-" + day == "2024-03-15"
  {
  }

  /** A day-first date with dots is not recognised and stays as it is. */
  lemma UnknownDateSample()
    ensures ReformatDate("15.03.2024") == "15.03.2024"
  {
    var v := "15.03.2024";
    assert v[2] == '.' && v[4] == '3';
  }

  lemma LowerDate()
    ensures ToLower("DATE") == "date"
  {
  }

  /** The selector `DATE` reformats like `date`. */
  lemma UpperCaseSelectorSample(formatNumber: string -> Option<string>)
    ensures ApplyTransformation("03/15/2024", "DATE", formatNumber) == "2024-03-15"
  {
    SlashDateSample("03/15/2024");
    LowerDate();
  }

  // ---------------------------------------------------------------------
  // findOrCreateElement
  // ---------------------------------------------------------------------

  /** The message of the DOM exception `createElement` throws for a name that is not an XML name. */
  const INVALID_CHARACTER: string := "INVALID_CHARACTER_ERR"

  /** `NameStartChar` of the `Name` production of XML 1.0 (fifth edition), by code point. */
  predicate IsNameStartChar(c: char) {
    var n := c as int;
    c == ':' || 'A' <= c <= 'Z' || c == '_' || 'a' <= c <= 'z'
    || 0xC0 <= n <= 0xD6 || 0xD8 <= n <= 0xF6 || 0xF8 <= n <= 0x2FF
    || 0x370 <= n <= 0x37D || 0x37F <= n <= 0x1FFF || 0x200C <= n <= 0x200D
    || 0x2070 <= n <= 0x218F || 0x2C00 <= n <= 0x2FEF || 0x3001 <= n <= 0xD7FF
    || 0xF900 <= n <= 0xFDCF || 0xFDF0 <= n <= 0xFFFD || 0x10000 <= n <= 0xEFFFF
  }

  /** `NameChar` of the same production. */
  predicate IsNameChar(c: char) {
    var n := c as int;
    IsNameStartChar(c) || c == '-' || c == '.' || IsDigit(c) || n == 0xB7
    || 0x300 <= n <= 0x36F || 0x203F <= n <= 0x2040
  }

  /** The names `createElement` accepts. */
  predicate IsXmlName(s: string) {
    s != [] && IsNameStartChar(s[0]) && forall i :: 1 <= i < |s| ==> IsNameChar(s[i])
  }

  /** Where a walk stands: the tree so far and the path to the current element. */
  datatype Position = Position(root: Element, current: seq<nat>)

  /**
   * One part of the walk from the element at `current`: the first descendant
   * with that tag becomes current; without one, a new element of that name
   * is appended to the current element and becomes current, and a part that
   * is not an XML name throws.
   */
  function Advance(root: Element, current: seq<nat>, part: string): (r: Result<Position, string>)
    requires ValidPath(root, current)
    ensures r.Err? <==> ByTag(At(root, current), part) == [] && !IsXmlName(part)
    ensures r.Err? ==> r.error == INVALID_CHARACTER
    ensures r.Ok? ==> ValidPath(r.value.root, r.value.current) && Matches(At(r.value.root, r.value.current).tag, part)
                      && |r.value.current| > |current| && r.value.current[..|current|] == current
    ensures r.Ok? && ByTag(At(root, current), part) != [] ==>
              r.value.root == root && At(root, r.value.current) == ByTag(At(root, current), part)[0]
    ensures r.Ok? && ByTag(At(root, current), part) == [] ==>
              r.value.root == AppendAt(root, current, NewElement(part)) && At(r.value.root, r.value.current) == NewElement(part)
  {
    var cur := At(root, current);
    FindIsFirstByTag(cur, part);
    match Find(cur, part)
    case Some(p) =>
      PathConcat(root, current, p);
      assert (current + p)[..|current|] == current;
      Ok(Position(root, current + p))
    case None =>
      if !IsXmlName(part) then Err(INVALID_CHARACTER)
      else
        AppendedChild(root, current, NewElement(part));
        assert (current + [|cur.children|])[..|current|] == current;
        Ok(Position(AppendAt(root, current, NewElement(part)), current + [|cur.children|]))
  }

  /** The outcome of a walk: the tree after it, and the path to the element it ends on or the exception it throws. */
  datatype WalkResult = WalkResult(root: Element, outcome: Result<seq<nat>, string>)

  /**
   * The walk of `findOrCreateElement` over `parts` from the element at
   * `current`. The elements created before a part that throws stay in the tree.
   */
  function Walk(root: Element, current: seq<nat>, parts: seq<string>): WalkResult
    requires ValidPath(root, current)
    decreases |parts|
  {
    if parts == [] then WalkResult(root, Ok(current))
    else match Advance(root, current, parts[0])
      case Err(e) => WalkResult(root, Err(e))
      case Ok(pos) => Walk(pos.root, pos.current, parts[1..])
  }

  /** One step of the walk, as the loop takes it. */
  lemma WalkStep(root: Element, current: seq<nat>, parts: seq<string>, i: nat)
    requires ValidPath(root, current) && i < |parts|
    ensures Walk(root, current, parts[i..]) ==
              match Advance(root, current, parts[i])
              case Err(e) => WalkResult(root, Err(e))
              case Ok(pos) => Walk(pos.root, pos.current, parts[i + 1..])
  {
    assert parts[i..][0] == parts[i] && parts[i..][1..] == parts[i + 1..];
  }

  /**
   * A walk that ends on an element ends on a valid path below its start,
   * whose element's tag is the last part (or anything, for `*`).
   */
  lemma {:induction false} WalkEndsOnLastPart(root: Element, current: seq<nat>, parts: seq<string>)
    requires ValidPath(root, current)
    ensures var w := Walk(root, current, parts);
            w.outcome.Ok? ==>
              ValidPath(w.root, w.outcome.value)
              && |w.outcome.value| >= |current| + |parts| && w.outcome.value[..|current|] == current
              && (parts != [] ==> Matches(At(w.root, w.outcome.value).tag, parts[|parts| - 1]))
    decreases |parts|
  {
    if parts != [] {
      match Advance(root, current, parts[0])
      case Err(_) =>
      case Ok(pos) =>
        WalkEndsOnLastPart(pos.root, pos.current, parts[1..]);
        var w := Walk(root, current, parts);
        if w.outcome.Ok? {
          var q := w.outcome.value;
          assert q[..|current|] == (q[..|pos.current|])[..|current|];
          if |parts| > 1 {
            assert parts[1..][|parts[1..]| - 1] == parts[|parts| - 1];
          }
        }
    }
  }

  /**
   * A walk only adds elements: every element of the tree before it is still
   * there, under the same path and with the same tag, and it adds at most
   * one element per part.
   */
  lemma {:induction false} WalkOnlyAdds(root: Element, current: seq<nat>, parts: seq<string>, x: seq<nat>)
    requires ValidPath(root, current) && ValidPath(root, x)
    ensures var w := Walk(root, current, parts);
            ValidPath(w.root, x) && At(w.root, x).tag == At(root, x).tag
            && Size(root) <= Size(w.root) <= Size(root) + |parts|
    decreases |parts|
  {
    if parts != [] {
      match Advance(root, current, parts[0])
      case Err(_) =>
      case Ok(pos) =>
        if pos.root != root {
          AppendKeeps(root, current, NewElement(parts[0]), x);
          AppendSize(root, current, NewElement(parts[0]));
        }
        WalkOnlyAdds(pos.root, pos.current, parts[1..], x);
    }
  }

  /** A walk throws only on a part that is not an XML name; when every part is one, it ends on an element. */
  lemma {:induction false} WalkFailsOnlyOnBadName(root: Element, current: seq<nat>, parts: seq<string>)
    requires ValidPath(root, current)
    ensures Walk(root, current, parts).outcome.Err? ==>
              Walk(root, current, parts).outcome.error == INVALID_CHARACTER
              && exists i :: 0 <= i < |parts| && !IsXmlName(parts[i])
    decreases |parts|
  {
    if parts != [] {
      match Advance(root, current, parts[0])
      case Err(_) =>
      case Ok(pos) =>
        WalkFailsOnlyOnBadName(pos.root, pos.current, parts[1..]);
        if Walk(root, current, parts).outcome.Err? {
          var i :| 0 <= i < |parts[1..]| && !IsXmlName(parts[1..][i]);
          assert parts[i + 1] == parts[1..][i];
        }
    }
  }

  /**
   * A path with an empty segment first (a leading `/`) throws on a
   * well-formed tree: no element has the empty tag, and the empty string is
   * not an XML name.
   */
  lemma EmptyFirstPartFails(root: Element, rest: seq<string>)
    requires WellFormed(root)
    ensures Walk(root, [], [""] + rest) == WalkResult(root, Err(INVALID_CHARACTER))
  {
    NothingMatchesEmpty(root);
  }

  /** `*` names no element to create: on an element without descendants it throws. */
  lemma StarOnLeafFails(root: Element, rest: seq<string>)
    requires root.children == []
    ensures Walk(root, [], ["*"] + rest) == WalkResult(root, Err(INVALID_CHARACTER))
  {
    assert (["*"] + rest)[0] == "*" && !IsNameStartChar('*');
    assert At(root, []) == root && ByTag(root, "*") == [];
    assert Advance(root, [], "*") == Err(INVALID_CHARACTER);
  }

  /** The parsed document whose element tree `findOrCreateElement` extends. */
  class XmlDocument {
    var documentElement: Element

    constructor(root: Element)
      ensures documentElement == root
    {
      documentElement := root;
    }

    /**
     * `findOrCreateElement(document, path)`: walks the `/`-separated parts of
     * `path` from the document element, creating missing elements; the
     * result is the path to the element reached, or the exception thrown.
     */
    method FindOrCreateElement(path: string) returns (r: Result<seq<nat>, string>)
      modifies this
      ensures var w := Walk(old(documentElement), [], JavaSplit(path, '/'));
              documentElement == w.root && r == w.outcome
    {
      var parts := JavaSplit(path, '/');
      var root := documentElement;
      var current: seq<nat> := [];
      var i := 0;
      while i < |parts|
        invariant 0 <= i <= |parts|
        invariant ValidPath(root, current)
        invariant Walk(old(documentElement), [], parts) == Walk(root, current, parts[i..])
      {
        WalkStep(root, current, parts, i);
        var cur := At(root, current);
        var found := Find(cur, parts[i]);
        FindIsFirstByTag(cur, parts[i]);
        if found.Some? {
          PathConcat(root, current, found.value);
          current := current + found.value;
        } else {
          if !IsXmlName(parts[i]) {
            documentElement := root;
            return Err(INVALID_CHARACTER);
          }
          var child := NewElement(parts[i]);
          AppendedChild(root, current, child);
          root := AppendAt(root, current, child);
          current := current + [|cur.children|];
        }
        i := i + 1;
      }
      documentElement := root;
      r := Ok(current);
    }
  }

  // ---------------------------------------------------------------------
  // processDocument(Document, Interface, Long)
  // ---------------------------------------------------------------------

  const DOCUMENT_XML: string := "document.xml"

  /**
   * The record `processDocument(document, interface, clientId)` returns:
   * `ERROR` with the validator's message when the structural or the content
   * check fails, `SUCCESS` otherwise. A null interface throws when its type is
   * read, and the handler records the exception's message. The client is
   * never set.
   */
  function ProcessOutcome(doc: Document, iface: Option<Interface>, exceptionMessage: string): (r: ProcessedFile)
    ensures r.fileName == Some(DOCUMENT_XML) && r.interfaceEntity == iface && r.client.None?
    ensures r.status in {SUCCESS, ERROR}
    ensures r.status == SUCCESS <==>
              StructureError(doc).None? && iface.Some?
              && ContentMessage(doc, iface.value.interfaceType, exceptionMessage).None?
    ensures r.status == SUCCESS ==> r.errorMessage.None?
    ensures StructureError(doc).Some? ==> r.errorMessage == StructureError(doc)
    ensures StructureError(doc).None? && iface.None? ==> r.errorMessage == Some(exceptionMessage)
    ensures StructureError(doc).None? && iface.Some? && r.status == ERROR ==>
              r.errorMessage == ContentMessage(doc, iface.value.interfaceType, exceptionMessage)
  {
    var file := ProcessedFile(Some(DOCUMENT_XML), ERROR, None, iface, None);
    if StructureError(doc).Some? then file.(errorMessage := StructureError(doc))
    else if iface.None? then file.(errorMessage := Some(exceptionMessage))
    else
      var content := ContentMessage(doc, iface.value.interfaceType, exceptionMessage);
      if content.Some? then file.(errorMessage := content)
      else file.(status := SUCCESS)
  }

  /**
   * A document is recorded as processed only when its root has a namespace
   * and a `version` attribute, its type is one of the known ones, and every
   * element that type requires is there with text.
   */
  lemma SuccessMeansValid(doc: Document, iface: Option<Interface>, exceptionMessage: string)
    requires ProcessOutcome(doc, iface, exceptionMessage).status == SUCCESS
    ensures doc.root.Some? && doc.root.value.namespaceURI.Some? && doc.root.value.namespaceURI.value != ""
            && "version" in doc.root.value.attributes
    ensures iface.Some? && iface.value.interfaceType.Some?
    ensures var rules := RulesFor(ToUpper(iface.value.interfaceType.value));
            rules.Some? && ContentErrors(doc.root.value, rules.value) == []
  {
    StructureErrorMeaning(doc);
    ContentMessageMeaning(doc, iface.value.interfaceType, exceptionMessage);
  }

  /**
   * `processDocument(document, interface, clientId)` with the validation
   * service the strategy holds; `exceptionMessage` is the message of the
   * exception a null interface or type raises.
   */
  method ProcessDocument(validator: XmlValidationServiceImpl, doc: Document, iface: Option<Interface>,
                         exceptionMessage: string) returns (r: ProcessedFile)
    modifies validator
    ensures r == ProcessOutcome(doc, iface, exceptionMessage)
    ensures StructureError(doc).Some? || iface.None? ==> validator.validationErrorMessage == StructureError(doc)
    ensures StructureError(doc).None? && iface.Some? ==>
              validator.validationErrorMessage == ContentMessage(doc, iface.value.interfaceType, exceptionMessage)
  {
    var ok := validator.ValidateXmlStructure(doc);
    if !ok {
      return ProcessedFile(Some(DOCUMENT_XML), ERROR, validator.GetValidationErrorMessage(), iface, None);
    }
    if iface.None? {
      return ProcessedFile(Some(DOCUMENT_XML), ERROR, Some(exceptionMessage), iface, None);
    }
    ok := validator.ValidateXmlContent(doc, iface.value.interfaceType, exceptionMessage);
    if !ok {
      return ProcessedFile(Some(DOCUMENT_XML), ERROR, validator.GetValidationErrorMessage(), iface, None);
    }
    r := ProcessedFile(Some(DOCUMENT_XML), SUCCESS, None, iface, None);
  }
}
