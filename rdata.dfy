/** The concrete record data types that generic record data can be re-parsed
    as. Their field layouts, parsers and formatters are collaborators; here a
    concrete type is only a name that selects one of them. */
module Rdata {
  import opened Iana

  datatype Concrete =
    | A | Cname | Hinfo | Mb | Md | Mf | Mg | Minfo | Mr | Mx | Ns | Null
    | Ptr | Soa | Txt | Wks | Aaaa

  /** The record type a concrete type is responsible for: the tag its
      `rtype()` reports and the one its `parse` accepts. */
  function Responsible(k: Concrete): RRType
  {
    match k
    case A => RRType.A
    case Cname => RRType.Cname
    case Hinfo => RRType.Hinfo
    case Mb => RRType.Mb
    case Md => RRType.Md
    case Mf => RRType.Mf
    case Mg => RRType.Mg
    case Minfo => RRType.Minfo
    case Mr => RRType.Mr
    case Mx => RRType.Mx
    case Ns => RRType.Ns
    case Null => RRType.Null
    case Ptr => RRType.Ptr
    case Soa => RRType.Soa
    case Txt => RRType.Txt
    case Wks => RRType.Wks
    case Aaaa => RRType.Aaaa
  }
}
