/**
 * The strategies registered in the application, as `getStrategy` sees them:
 * the XML strategy and the ASN strategy.
 */
module StrategySelection {
  import opened Wrappers
  import opened Text
  import opened Entities
  import opened StrategyService
  import XmlStrategy
  import AsnStrategy

  const REGISTERED: seq<Strategy> := [XmlStrategy.XML_STRATEGY, AsnStrategy.ASN_STRATEGY]

  lemma UpperXml()
    ensures ToUpper("XML") == "XML" && ToUpper("ASN") == "ASN"
  {
  }

  /** The ASN strategy's own `canHandle` is the common one applied to its type. */
  lemma AsnCanHandleAgrees(t: Option<string>)
    ensures AsnStrategy.CanHandle(t) <==> CanHandle(AsnStrategy.ASN_STRATEGY, t)
  {
  }

  /**
   * The registered strategies pick by type alone: an interface whose type is
   * `XML` in any case gets the XML strategy, `ASN` in any case the ASN
   * strategy, any other type fails, and a missing interface or type is
   * refused.
   */
  lemma {:induction false} RegisteredSelection(iface: Option<Interface>)
    ensures iface.None? || iface.value.interfaceType.None? ==>
              GetStrategy(REGISTERED, iface) == Err(IllegalArgumentException(NULL_INTERFACE))
    ensures iface.Some? && iface.value.interfaceType.Some? ==>
              var t := iface.value.interfaceType.value;
              GetStrategy(REGISTERED, iface) ==
                if ToUpper(t) == "XML" then Ok(XmlStrategy.XML_STRATEGY)
                else if ToUpper(t) == "ASN" then Ok(AsnStrategy.ASN_STRATEGY)
                else Err(RuntimeException(NO_STRATEGY + t))
  {
    UpperXml();
    if iface.Some? && iface.value.interfaceType.Some? {
      var t := iface.value.interfaceType;
      var x, a := XmlStrategy.XML_STRATEGY, AsnStrategy.ASN_STRATEGY;
      assert REGISTERED[..1] == [x] && [x][..0] == [];
      assert Handlers([x], t) == Handlers([], t) + (if CanHandle(x, t) then [x] else []);
      assert Handlers(REGISTERED, t) == Handlers([x], t) + (if CanHandle(a, t) then [a] else []);
      assert Handlers(REGISTERED, t) ==
               (if CanHandle(XmlStrategy.XML_STRATEGY, t) then [XmlStrategy.XML_STRATEGY] else [])
               + (if CanHandle(AsnStrategy.ASN_STRATEGY, t) then [AsnStrategy.ASN_STRATEGY] else []);
    }
  }

  /** A lower-case `asn` selects the ASN strategy. */
  lemma AsnSample(iface: Interface)
    requires iface.interfaceType == Some("asn")
    ensures GetStrategy(REGISTERED, Some(iface)) == Ok(AsnStrategy.ASN_STRATEGY)
  {
    assert ToUpper("asn") == "ASN";
    RegisteredSelection(Some(iface));
  }

  /** An unknown type fails with a message naming it. */
  lemma UnknownTypeSample(iface: Interface)
    requires iface.interfaceType == Some("EDI")
    ensures GetStrategy(REGISTERED, Some(iface)) == Err(RuntimeException("No processing strategy found for interface type: EDI"))
  {
    assert ToUpper("EDI") == "EDI";
    RegisteredSelection(Some(iface));
    assert NO_STRATEGY + "EDI" == "No processing strategy found for interface type: EDI";
  }
}
