/** Record type tags (IANA RR type codes). Only the tags that the generic
    record data dispatches on are named; every other code is `Other`. */
module Iana {
  datatype RRType =
    | A | Ns | Md | Mf | Cname | Soa | Mb | Mg | Mr | Null | Wks | Ptr
    | Hinfo | Minfo | Mx | Txt | Aaaa
    | Other(code: int)
}
