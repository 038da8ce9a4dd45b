/**
 * `AsnDocumentProcessingStrategy`: the strategy for ASN (advance shipping
 * notice) interfaces. It adds ASN-specific transformations to the base class
 * and records an uploaded ASN file as processed.
 */
module AsnStrategy {
  import opened Wrappers
  import opened Text
  import opened Entities
  import opened MappingRules
  import AbstractStrategy
  import StrategyService

  const ASN_TYPE: string := "ASN"

  /** The strategy as the selection sees it: type `ASN`, priority 100. */
  const ASN_STRATEGY: StrategyService.Strategy := StrategyService.Strategy("ASN Document Processor", ASN_TYPE, 100)

  /** `canHandle(type)`: `"ASN".equalsIgnoreCase(type)`; null is refused. */
  predicate CanHandle(interfaceType: Option<string>) {
    interfaceType.Some? && EqualsIgnoreCase(ASN_TYPE, interfaceType.value)
  }

  /** The ASN selectors that are library conversions (dates, times, quantities). */
  const ASN_LIBRARY_SELECTORS: set<string> := {"asn_date", "asn_time", "asn_quantity"}

  /** The readable name of an ASN status code. */
  function StatusName(code: string): (r: Option<string>)
    ensures r.Some? <==> code in {"01", "02", "03", "04"}
  {
    if code == "01" then Some("NEW")
    else if code == "02" then Some("PROCESSING")
    else if code == "03" then Some("COMPLETED")
    else if code == "04" then Some("ERROR")
    else None
  }

  /**
   * `applyTransformation(value, transformation)`: a null or blank value is
   * returned as it is. `asn_number` re-prints the value as a `long` (keeping
   * it when it does not parse), `asn_status` maps the trimmed codes 01 to 04
   * to their names (keeping other values), the library selectors convert the
   * value, and every other selector goes to the base class.
   */
  function ApplyTransformation(value: Option<string>, transformation: string, library: AbstractStrategy.Library)
    : (r: Option<string>)
    ensures r.None? <==> value.None?
    ensures value.None? || IsJavaBlank(value.value) ==> r == value
    ensures value.Some? && !IsJavaBlank(value.value) ==>
              var t := ToLower(transformation);
              (t in ASN_LIBRARY_SELECTORS && library(t, value.value).Some? ==> r == library(t, value.value))
              && (t in ASN_LIBRARY_SELECTORS && library(t, value.value).None? ==> r == value)
              && (t == "asn_number" && ParseLong(value.value).Some? ==> r == Some(IntToString(ParseLong(value.value).value)))
              && (t == "asn_number" && ParseLong(value.value).None? ==> r == value)
              && (t == "asn_status" && StatusName(JavaTrim(value.value)).Some? ==> r == StatusName(JavaTrim(value.value)))
              && (t == "asn_status" && StatusName(JavaTrim(value.value)).None? ==> r == value)
              && (t !in ASN_LIBRARY_SELECTORS + {"asn_number", "asn_status"} ==>
                    r == AbstractStrategy.ApplyTransformation(value, transformation, library))
  {
    if value.None? || IsJavaBlank(value.value) then value
    else
      var v := value.value;
      var t := ToLower(transformation);
      if t in ASN_LIBRARY_SELECTORS then Some(library(t, v).GetOr(v))
      else if t == "asn_number" then
        match ParseLong(v)
        case None => value
        case Some(n) => Some(IntToString(n))
      else if t == "asn_status" then Some(StatusName(JavaTrim(v)).GetOr(v))
      else AbstractStrategy.ApplyTransformation(value, transformation, library)
  }

  /** The transformation the base class's rule loop calls on this strategy. */
  function Apply(library: AbstractStrategy.Library): (Option<string>, string) -> Option<string> {
    (value, transformation) => ApplyTransformation(value, transformation, library)
  }

  // ---------------------------------------------------------------------
  // asn_number
  // ---------------------------------------------------------------------

  lemma {:induction false} DigitsValueConcat(a: string, b: string)
    requires forall i :: 0 <= i < |a| ==> IsDigit(a[i])
    requires forall i :: 0 <= i < |b| ==> IsDigit(b[i])
    ensures DigitsValue(a + b) == DigitsValue(a) * Pow10(|b|) + DigitsValue(b)
    decreases |b|
  {
    if b == [] {
      assert a + b == a;
    } else {
      var b' := b[..|b| - 1];
      var d := DigitValue(b[|b| - 1]);
      assert (a + b)[..|a + b| - 1] == a + b' && (a + b)[|a + b| - 1] == b[|b| - 1];
      assert DigitsValue(a + b) == DigitsValue(a + b') * 10 + d;
      assert DigitsValue(b) == DigitsValue(b') * 10 + d;
      DigitsValueConcat(a, b');
      ShiftDigit(DigitsValue(a), Pow10(|b'|), DigitsValue(b'), d);
    }
  }

  lemma ShiftDigit(x: int, p: int, y: int, d: int)
    ensures (x * p + y) * 10 + d == x * (10 * p) + (y * 10 + d)
  {
  }

  function Pow10(n: nat): nat {
    if n == 0 then 1 else 10 * Pow10(n - 1)
  }

  lemma {:induction false} ZerosValue(z: string)
    requires forall i :: 0 <= i < |z| ==> z[i] == '0'
    ensures DigitsValue(z) == 0
    decreases |z|
  {
    if z != [] {
      ZerosValue(z[..|z| - 1]);
    }
  }

  /** `asn_number` on a non-blank value: the re-printed number, or the value when it does not parse. */
  lemma NumberOfValue(v: string, transformation: string, library: AbstractStrategy.Library)
    requires ToLower(transformation) == "asn_number" && !IsJavaBlank(v)
    ensures ApplyTransformation(Some(v), transformation, library)
         == if ParseLong(v).Some? then Some(IntToString(ParseLong(v).value)) else Some(v)
  {
    var t := ToLower(transformation);
    assert t !in ASN_LIBRARY_SELECTORS;
  }

  /** Zero padding in front of a number in range does not change the value `Long.parseLong` reads. */
  lemma ParseZeroPadded(zeros: string, n: nat)
    requires forall i :: 0 <= i < |zeros| ==> zeros[i] == '0'
    requires n <= LONG_MAX
    ensures !IsJavaBlank(zeros + NatToString(n)) && ParseLong(zeros + NatToString(n)) == Some(n)
  {
    var d := NatToString(n);
    var s := zeros + d;
    PaddedDigits(zeros, d);
    assert !IsJavaTrimmed(s[|s| - 1]);
    assert DigitsValue(s) == n by {
      ZerosValue(zeros);
      DigitsValueConcat(zeros, d);
      DigitsOfNat(n);
    }
    ParseDigits(s);
  }

  /** `Long.parseLong` reads a string of digits in range as its value. */
  lemma ParseDigits(s: string)
    requires s != [] && forall i :: 0 <= i < |s| ==> IsDigit(s[i])
    requires DigitsValue(s) <= LONG_MAX
    ensures ParseLong(s) == Some(DigitsValue(s))
  {
    assert !(s[0] == '-' || s[0] == '+');
  }

  lemma PaddedDigits(zeros: string, d: string)
    requires forall i :: 0 <= i < |zeros| ==> zeros[i] == '0'
    requires forall i :: 0 <= i < |d| ==> IsDigit(d[i])
    ensures forall i :: 0 <= i < |zeros + d| ==> IsDigit((zeros + d)[i])
  {
    var s := zeros + d;
    forall i | 0 <= i < |s| ensures IsDigit(s[i]) {
      if i >= |zeros| {
        assert s[i] == d[i - |zeros|];
      }
    }
  }

  /** `asn_number` strips the leading zeros of a number in range. */
  lemma LeadingZerosStripped(zeros: string, n: nat, transformation: string, library: AbstractStrategy.Library)
    requires forall i :: 0 <= i < |zeros| ==> zeros[i] == '0'
    requires n <= LONG_MAX && ToLower(transformation) == "asn_number"
    ensures ApplyTransformation(Some(zeros + NatToString(n)), transformation, library) == Some(NatToString(n))
  {
    ParseZeroPadded(zeros, n);
    NumberOfValue(zeros + NatToString(n), transformation, library);
  }

  /** `asn_number` keeps a number already printed without leading zeros. */
  lemma CanonicalNumberKept(n: int, transformation: string, library: AbstractStrategy.Library)
    requires LONG_MIN <= n <= LONG_MAX && ToLower(transformation) == "asn_number"
    ensures ApplyTransformation(Some(IntToString(n)), transformation, library) == Some(IntToString(n))
  {
    ParseLongOfIntToString(n);
    var s := IntToString(n);
    var d := NatToString(if n < 0 then -n else n);
    assert s[|s| - 1] == d[|d| - 1];
    assert !IsJavaBlank(s);
  }

  // ---------------------------------------------------------------------
  // asn_status
  // ---------------------------------------------------------------------

  /** `asn_status` gives one of the four names or the value itself. */
  lemma StatusResult(value: string, transformation: string, library: AbstractStrategy.Library)
    requires ToLower(transformation) == "asn_status"
    ensures var r := ApplyTransformation(Some(value), transformation, library);
            r == Some(value) || r.value in {"NEW", "PROCESSING", "COMPLETED", "ERROR"}
  {
  }

  lemma {:induction false} NoBlankIsTrimmed(s: string)
    requires s != [] && forall i :: 0 <= i < |s| ==> !IsJavaTrimmed(s[i])
    ensures JavaTrim(s) == s && !IsJavaBlank(s)
  {
    assert DropStart(s, IsJavaTrimmed) == s;
    assert DropEnd(s, IsJavaTrimmed) == s;
    assert !IsJavaTrimmed(s[0]);
  }

  /** `asn_status` on a non-blank value: the name of its trimmed code, or the value itself. */
  lemma StatusOfValue(v: string, transformation: string, library: AbstractStrategy.Library)
    requires ToLower(transformation) == "asn_status" && !IsJavaBlank(v)
    ensures ApplyTransformation(Some(v), transformation, library) == Some(StatusName(JavaTrim(v)).GetOr(v))
  {
    var t := ToLower(transformation);
    assert t !in ASN_LIBRARY_SELECTORS && t != "asn_number";
  }

  /** `asn_status` on a value without blanks: the name of the code, or the value itself. */
  lemma StatusOfPlain(v: string, transformation: string, library: AbstractStrategy.Library)
    requires ToLower(transformation) == "asn_status"
    requires v != [] && forall i :: 0 <= i < |v| ==> !IsJavaTrimmed(v[i])
    ensures ApplyTransformation(Some(v), transformation, library) == Some(StatusName(v).GetOr(v))
  {
    NoBlankIsTrimmed(v);
    StatusOfValue(v, transformation, library);
  }

  /** The four codes and their names; a name is not itself a code. */
  lemma StatusCodes()
    ensures StatusName("01") == Some("NEW") && StatusName("02") == Some("PROCESSING")
    ensures StatusName("03") == Some("COMPLETED") && StatusName("04") == Some("ERROR")
    ensures StatusName("NEW") == None
  {
  }

  /** Blank padding around a code is trimmed away before the lookup. */
  lemma PaddedStatusCode(pad: string, code: string, transformation: string, library: AbstractStrategy.Library)
    requires forall i :: 0 <= i < |pad| ==> IsJavaTrimmed(pad[i])
    requires code in {"01", "02", "03", "04"} && ToLower(transformation) == "asn_status"
    ensures ApplyTransformation(Some(pad + code), transformation, library) == StatusName(code)
  {
    var v := pad + code;
    assert |code| == 2 && code[0] == '0' && '1' <= code[1] <= '4';
    TrimPadded(pad, code, IsJavaTrimmed);
    assert v[|v| - 1] == code[1];
    StatusOfValue(v, transformation, library);
  }

  // ---------------------------------------------------------------------
  // processDocument(MultipartFile, Interface)
  // ---------------------------------------------------------------------

  /**
   * `processDocument(file, interface)`: the file is recorded as processed
   * with status `SUCCESS` under the interface and its client. A null
   * interface throws, in the handler too, so the call fails.
   */
  function ProcessUpload(fileName: Option<string>, iface: Option<Interface>): (r: Result<ProcessedFile, string>)
    ensures iface.None? <==> r.Err?
    ensures r.Ok? ==> r.value.status == SUCCESS && r.value.errorMessage.None? && r.value.fileName == fileName
                      && r.value.interfaceEntity == iface && r.value.client == iface.value.client
  {
    match iface
    case None => Err("NullPointerException")
    case Some(i) => Ok(ProcessedFile(fileName, SUCCESS, None, iface, i.client))
  }
}
