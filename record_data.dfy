/** Record data: the three-way parse contract every record data type keeps,
    and generic record data (RFC 3597, "Handling of Unknown DNS Resource
    Record (RR) Types"), a type tag with the record's raw bytes that can be
    re-parsed as a concrete type, composed, scanned from text, displayed and
    compared.

    The concrete types are collaborators: `decode(R, t, parser)` is
    `R::parse(t, parser)` (None when `R` declines tag `t`), and `show`
    formats a parsed value. The parser a concrete parse advances is always a
    fresh one that this core throws away, so its rest is not kept. */
module RecordData {
  import opened Errors
  import opened Bytes
  import opened Iana
  import Rdata
  import opened Master

  //------------ Nest and parser ----------------------------------------------

  /** A nest: the bytes of one record's data and the message they were parsed
      from, against which compressed names inside them are resolved. */
  datatype Nest = Nest(message: seq<Byte>, bytes: seq<Byte>)

  /** A parser: the message it reads from and the bytes left in the current
      record. */
  datatype Parser = Parser(message: seq<Byte>, rest: seq<Byte>)

  /** `Nest::parser()`: a fresh parser over exactly the nest's bytes, inside its message. */
  function NestParser(n: Nest): Parser
  {
    Parser(n.message, n.bytes)
  }

  type Decoder<D> = (Rdata.Concrete, RRType, Parser) -> Option<ParseResult<D>>

  //----------- RecordData ----------------------------------------------------

  /** The contract of `RecordData::parse` for a parsed value: the parser is
      left in the same message with a suffix of the bytes it had. A declining
      parse returns no parser here, so the caller's parser stays as it was;
      the predicate states nothing more about that case. */
  ghost predicate KeepsParseContract<T>(parse: (RRType, Parser) -> Option<ParseResult<(T, Parser)>>)
  {
    forall t, p :: parse(t, p).Some? && parse(t, p).value.Ok? ==>
      var q := parse(t, p).value.value.1;
      q.message == p.message && |q.rest| <= |p.rest| && q.rest == p.rest[|p.rest| - |q.rest|..]
  }

  //------------ GenericRecordData --------------------------------------------

  /** A record type tag and the record's data exactly as captured. */
  datatype GenericRecordData = GenericRecordData(rtype: RRType, data: Nest)

  function New(rtype: RRType, data: Nest): (g: GenericRecordData)
    ensures RType(g) == rtype && Data(g) == data
  {
    GenericRecordData(rtype, data)
  }

  /** The stored tag; with the stored data it rebuilds the value. */
  function RType(g: GenericRecordData): (r: RRType)
    ensures GenericRecordData(r, g.data) == g
  {
    g.rtype
  }

  /** The stored data; with the stored tag it rebuilds the value. */
  function Data(g: GenericRecordData): (r: Nest)
    ensures GenericRecordData(g.rtype, r) == g
  {
    g.data
  }

  /** A concrete type that declines by tag alone: declining one parser for
      tag `t` means declining all of them. */
  ghost predicate DeclinesByTag<D>(decode: Decoder<D>)
  {
    forall k, t, p, p' :: decode(k, t, p).None? ==> decode(k, t, p').None?
  }

  ghost predicate Declines<D>(decode: Decoder<D>, k: Rdata.Concrete, t: RRType)
  {
    forall p :: decode(k, t, p).None?
  }

  /** The value re-parsed as concrete type `k`: `k`'s parse under the stored
      tag from a fresh parser over the nest. It is None exactly when `k`
      declines the stored tag. */
  function Concrete<D>(decode: Decoder<D>, k: Rdata.Concrete, g: GenericRecordData): (r: Option<ParseResult<D>>)
    ensures r == decode(k, RType(g), Parser(Data(g).message, Data(g).bytes))
    ensures DeclinesByTag(decode) ==> (r.None? <==> Declines(decode, k, RType(g)))
  {
    decode(k, g.rtype, NestParser(g.data))
  }

  /** `RecordData::parse` for generic data: takes all bytes left in the
      parser as the nest. It never declines. */
  function Parse(rtype: RRType, parser: Parser): (r: Option<ParseResult<(GenericRecordData, Parser)>>)
    ensures r.Some? && r.value.Ok?
    ensures RType(r.value.value.0) == rtype && Data(r.value.value.0) == Nest(parser.message, parser.rest)
    ensures r.value.value.1 == Parser(parser.message, [])
  {
    var len := |parser.rest|;
    match SplitBytes(parser.rest, len)
    case Err(err) => Some(Err(err))
    case Ok((head, tail)) => Some(Ok((New(rtype, Nest(parser.message, head)), Parser(parser.message, tail))))
  }

  /** Appends the captured bytes verbatim; compressed names inside them are
      not rewritten. */
  method Compose(g: GenericRecordData, target: BytesBuf)
    modifies target
    ensures target.bytes == old(target.bytes) + Data(g).bytes
  {
    target.PushBytes(g.data.bytes);
  }

  /** Generic parse keeps the three-way contract, so it can sit after every
      concrete type as the fallback. */
  lemma ParseKeepsContract()
    ensures KeepsParseContract(Parse)
  {
    forall t, p | Parse(t, p).Some? && Parse(t, p).value.Ok?
      ensures var q := Parse(t, p).value.value.1;
        q.message == p.message && |q.rest| <= |p.rest| && q.rest == p.rest[|p.rest| - |q.rest|..]
    {
      assert p.rest[|p.rest|..] == [];
    }
  }

  /** Re-parsing a value obtained by `Parse` sees exactly the record's bytes,
      inside the same message, under its own tag. */
  lemma ConcreteAfterParse<D>(decode: Decoder<D>, k: Rdata.Concrete, rtype: RRType, parser: Parser)
    ensures Concrete(decode, k, Parse(rtype, parser).value.value.0) == decode(k, rtype, parser)
  {
  }

  /** Parsing followed by composing re-emits the record's bytes unchanged. */
  method ReEmit(rtype: RRType, parser: Parser) returns (out: seq<Byte>)
    ensures out == parser.rest
  {
    var buf := new BytesBuf();
    match Parse(rtype, parser) {
      case Some(Ok((g, _))) => Compose(g, buf);
      case _ =>
    }
    out := buf.bytes;
  }

  //------------ Scanning the generic text form ------------------------------

  /** All bytes the hex words from word `i` on deliver, in input order. */
  function Delivered(words: seq<HexWord>, i: nat): seq<Byte>
    requires i <= |words|
    decreases |words| - i
  {
    if i == |words| then [] else words[i].bytes + Delivered(words, i + 1)
  }

  /** What scanning the hex words from word `i` on does while `len` bytes are
      still to come: the outcome and the bytes pushed. A byte arriving after
      the count reached zero is `LongGenericData`; a fault of the scanner
      ends the scan. Never more than `len` bytes are pushed, in input order;
      success pushes exactly `len`, and so does `LongGenericData`, which
      happens only when more bytes were delivered. */
  function ScanWords(words: seq<HexWord>, i: nat, len: nat, end: StreamError): (r: (Outcome, seq<Byte>))
    requires i <= |words|
    ensures |r.1| <= len && r.1 <= Delivered(words, i)
    ensures r.0 == Pass ==> |r.1| == len
    ensures r.0 == Fail(LongGenericData) ==> |r.1| == len < |Delivered(words, i)|
    decreases |words| - i
  {
    if len == 0 then (Pass, [])
    else if i == |words| then (Fail(Stream(end)), [])
    else
      var w := words[i];
      if |w.bytes| > len then
        assert w.bytes[..len] <= w.bytes + Delivered(words, i + 1);
        (Fail(LongGenericData), w.bytes[..len])
      else if w.fault.Some? then (Fail(Stream(w.fault.value)), w.bytes)
      else
        var (o, p) := ScanWords(words, i + 1, len - |w.bytes|, end);
        (o, w.bytes + p)
  }

  /** `ScanWords` unfolded once, case by case, for a count still above zero. */
  lemma StepScanWords(words: seq<HexWord>, i: nat, len: nat, end: StreamError)
    requires i <= |words| && len > 0
    ensures i == |words| ==> ScanWords(words, i, len, end) == (Fail(Stream(end)), [])
    ensures i < |words| && |words[i].bytes| > len ==>
      ScanWords(words, i, len, end) == (Fail(LongGenericData), words[i].bytes[..len])
    ensures i < |words| && |words[i].bytes| <= len && words[i].fault.Some? ==>
      ScanWords(words, i, len, end) == (Fail(Stream(words[i].fault.value)), words[i].bytes)
    ensures i < |words| && |words[i].bytes| <= len && words[i].fault.None? ==>
      var next := ScanWords(words, i + 1, len - |words[i].bytes|, end);
      ScanWords(words, i, len, end) == (next.0, words[i].bytes + next.1)
  {
  }

  /** The outcome of scanning `\# <length> <hex words>` and the bytes pushed:
      a failure to skip the literal or to read the length is passed on with
      nothing pushed; otherwise the hex words are scanned with the declared
      length, so the bounds of `ScanWords` hold and its failure lemmas say
      when the scan fails. */
  function ScanGeneric(text: GenericText): (r: (Outcome, seq<Byte>))
    ensures text.literal.Failed? ==> r == (Fail(Stream(text.literal.error)), [])
    ensures text.literal.Got? && text.length.Failed? ==> r == (Fail(Stream(text.length.error)), [])
    ensures text.literal.Got? && text.length.Got? ==>
      && |r.1| <= text.length.value
      && r.1 <= Delivered(text.words, 0)
      && (r.0 == Pass ==> |r.1| == text.length.value)
      && (r.0 == Fail(LongGenericData) ==> |r.1| == text.length.value < |Delivered(text.words, 0)|)
    ensures text.literal.Got? && text.length.Got? ==> r == ScanWords(text.words, 0, text.length.value, text.end)
  {
    match text.literal
    case Failed(e) => (Fail(Stream(e)), [])
    case Got(_) =>
      match text.length
      case Failed(e) => (Fail(Stream(e)), [])
      case Got(n) => ScanWords(text.words, 0, n, text.end)
  }

  /** The callback run for each byte of one hex word: push the byte and count
      down, or report `LongGenericData` once the count is zero. */
  method PushWord(bytes: seq<Byte>, len: nat, target: BytesBuf) returns (left: nat, long: bool)
    modifies target
    ensures long <==> |bytes| > len
    ensures long ==> target.bytes == old(target.bytes) + bytes[..len]
    ensures !long ==> left == len - |bytes| && target.bytes == old(target.bytes) + bytes
  {
    left := len;
    var j := 0;
    while j < |bytes|
      invariant j <= |bytes| && j <= len && left == len - j
      invariant target.bytes == old(target.bytes) + bytes[..j]
    {
      if left == 0 {
        return left, true;
      }
      target.PushU8(bytes[j]);
      assert bytes[..j + 1] == bytes[..j] + [bytes[j]];
      left := left - 1;
      j := j + 1;
    }
    assert bytes[..j] == bytes;
    return left, false;
  }

  /** Scans the generic text form into `target`: skip the `\#` literal,
      read the length, then scan hex words while it is not used up. */
  method ScanInto(text: GenericText, target: BytesBuf) returns (r: Outcome)
    modifies target
    ensures r == ScanGeneric(text).0
    ensures target.bytes == old(target.bytes) + ScanGeneric(text).1
  {
    if text.literal.Failed? {
      return Fail(Stream(text.literal.error));
    }
    if text.length.Failed? {
      return Fail(Stream(text.length.error));
    }
    var n: nat := text.length.value;
    target.Reserve(n);
    r := ScanHexWords(text.words, n, text.end, target);
  }

  /** The loop of `ScanInto`: counts `len` down over the hex words. */
  method ScanHexWords(words: seq<HexWord>, n: nat, end: StreamError, target: BytesBuf) returns (r: Outcome)
    modifies target
    ensures r == ScanWords(words, 0, n, end).0
    ensures target.bytes == old(target.bytes) + ScanWords(words, 0, n, end).1
  {
    var len := n;
    var i := 0;
    ghost var whole := ScanWords(words, 0, n, end);
    ghost var rest := whole;
    while len > 0
      invariant i <= |words|
      invariant rest == ScanWords(words, i, len, end)
      invariant rest.0 == whole.0
      invariant target.bytes + rest.1 == old(target.bytes) + whole.1
      decreases |words| - i
    {
      StepScanWords(words, i, len, end);
      if i == |words| {
        return Fail(Stream(end));
      }
      var w := words[i];
      var left, long := PushWord(w.bytes, len, target);
      if long {
        return Fail(LongGenericData);
      }
      if w.fault.Some? {
        return Fail(Stream(w.fault.value));
      }
      len, i := left, i + 1;
      rest := ScanWords(words, i, len, end);
    }
    return Pass;
  }

  /** Hex words without faults that deliver exactly the declared length are
      pushed whole and the scan succeeds. */
  lemma {:induction false} ScanWordsExact(words: seq<HexWord>, i: nat, end: StreamError)
    requires i <= |words|
    requires forall j :: i <= j < |words| ==> words[j].fault.None?
    ensures ScanWords(words, i, |Delivered(words, i)|, end) == (Pass, Delivered(words, i))
    decreases |words| - i
  {
    if i < |words| {
      ScanWordsExact(words, i + 1, end);
      if |Delivered(words, i)| == 0 {
        assert words[i].bytes == [] && Delivered(words, i + 1) == [];
      }
    }
  }

  /** No word from `i` up to `j` carries a fault of the scanner. */
  ghost predicate FaultFree(words: seq<HexWord>, i: nat, j: nat)
    requires i <= j <= |words|
  {
    forall m :: i <= m < j ==> words[m].fault.None?
  }

  /** Later words deliver no more bytes than earlier ones and the words
      between: `|Delivered(words, i)| - |Delivered(words, j)|` counts the
      bytes of words `i` up to `j`. */
  lemma {:induction false} DeliveredShrinks(words: seq<HexWord>, i: nat, j: nat)
    requires i <= j <= |words|
    ensures |Delivered(words, j)| <= |Delivered(words, i)|
    decreases j - i
  {
    if i < j {
      DeliveredShrinks(words, i + 1, j);
    }
  }

  /** The count reaching zero exactly at the end of word `j - 1` succeeds,
      whatever words follow, after pushing words `i` up to `j`. */
  lemma {:induction false} ScanWordsBoundary(words: seq<HexWord>, i: nat, j: nat, len: nat, end: StreamError)
    requires i <= j <= |words| && FaultFree(words, i, j)
    requires len == |Delivered(words, i)| - |Delivered(words, j)|
    ensures ScanWords(words, i, len, end) == (Pass, Delivered(words, i)[..len])
    decreases j - i
  {
    if len > 0 {
      var w := words[i];
      DeliveredShrinks(words, i + 1, j);
      ScanWordsBoundary(words, i + 1, j, len - |w.bytes|, end);
      assert Delivered(words, i)[..len] == w.bytes + Delivered(words, i + 1)[..len - |w.bytes|];
    }
  }

  /** A byte arriving once the count reached zero, inside word `j` after
      fault-free words `i` up to `j`, fails with `LongGenericData` after
      pushing exactly the declared length. */
  lemma {:induction false} ScanWordsOverrun(words: seq<HexWord>, i: nat, j: nat, len: nat, end: StreamError)
    requires i <= j < |words| && FaultFree(words, i, j)
    requires |Delivered(words, i)| - |Delivered(words, j)| < len < |Delivered(words, i)| - |Delivered(words, j + 1)|
    ensures ScanWords(words, i, len, end) == (Fail(LongGenericData), Delivered(words, i)[..len])
    decreases j - i
  {
    var w := words[i];
    if i == j {
      assert Delivered(words, i)[..len] == w.bytes[..len];
    } else {
      DeliveredShrinks(words, i + 1, j);
      ScanWordsOverrun(words, i + 1, j, len - |w.bytes|, end);
      assert Delivered(words, i)[..len] == w.bytes + Delivered(words, i + 1)[..len - |w.bytes|];
    }
  }

  /** A fault of the scanner in word `j`, reached with the count still above
      zero and not overrun by that word, is passed on after pushing words
      `i` up to and including `j`. */
  lemma {:induction false} ScanWordsFault(words: seq<HexWord>, i: nat, j: nat, len: nat, end: StreamError)
    requires i <= j < |words| && FaultFree(words, i, j) && words[j].fault.Some?
    requires |Delivered(words, i)| - |Delivered(words, j)| < len
    requires |Delivered(words, i)| - |Delivered(words, j + 1)| <= len
    ensures |Delivered(words, j + 1)| <= |Delivered(words, i)|
    ensures ScanWords(words, i, len, end) ==
      (Fail(Stream(words[j].fault.value)), Delivered(words, i)[..|Delivered(words, i)| - |Delivered(words, j + 1)|])
    decreases j - i
  {
    var w := words[i];
    var n := |Delivered(words, i)| - |Delivered(words, j + 1)|;
    if i == j {
      assert Delivered(words, i)[..n] == w.bytes;
    } else {
      DeliveredShrinks(words, i + 1, j);
      ScanWordsFault(words, i + 1, j, len - |w.bytes|, end);
      assert Delivered(words, i)[..n] == w.bytes + Delivered(words, i + 1)[..n - |w.bytes|];
    }
  }

  /** Fault-free words that deliver fewer bytes than declared fail with the
      scanner's end-of-input error after pushing everything delivered. */
  lemma {:induction false} ScanWordsRunOut(words: seq<HexWord>, i: nat, len: nat, end: StreamError)
    requires i <= |words| && FaultFree(words, i, |words|)
    requires |Delivered(words, i)| < len
    ensures ScanWords(words, i, len, end) == (Fail(Stream(end)), Delivered(words, i))
    decreases |words| - i
  {
    if i < |words| {
      ScanWordsRunOut(words, i + 1, len - |words[i].bytes|, end);
    }
  }

  /** A declared length of zero succeeds without reading a word or pushing a byte. */
  lemma ScanGenericEmpty(text: GenericText)
    requires text.literal.Got? && text.length == Got(0)
    ensures ScanGeneric(text) == (Pass, [])
  {
  }

  /** `\# 2 0A0B` yields `[0x0A, 0x0B]`; `\# 1 0A0B` fails with
      `LongGenericData` after pushing one byte. */
  lemma ScanGenericExamples(end: StreamError)
    ensures ScanGeneric(GenericText(Got(()), Got(2), [HexWord([0x0A, 0x0B], None)], end)) == (Pass, [0x0A, 0x0B])
    ensures ScanGeneric(GenericText(Got(()), Got(1), [HexWord([0x0A, 0x0B], None)], end)) == (Fail(LongGenericData), [0x0A])
  {
    var words := [HexWord([0x0A, 0x0B], None)];
    assert ScanWords(words, 1, 0, end) == (Pass, []);
    var ab: seq<Byte> := [0x0A, 0x0B];
    assert ab + [] == ab;
    assert ScanWords(words, 0, 2, end) == (Pass, ab);
    assert ScanGeneric(GenericText(Got(()), Got(2), words, end)) == (Pass, ab);
    assert [0x0A, 0x0B][..1] == [0x0A];
  }

  /** `\# 2 0A 0B0C` fails with `LongGenericData` in the second word after
      pushing `[0x0A, 0x0B]`; `\# 1 0A 0B` succeeds after the first word
      without looking at the second. */
  lemma ScanGenericWordExamples(end: StreamError)
    ensures ScanGeneric(GenericText(Got(()), Got(2), [HexWord([0x0A], None), HexWord([0x0B, 0x0C], None)], end))
      == (Fail(LongGenericData), [0x0A, 0x0B])
    ensures ScanGeneric(GenericText(Got(()), Got(1), [HexWord([0x0A], None), HexWord([0x0B], None)], end))
      == (Pass, [0x0A])
  {
    var long := [HexWord([0x0A], None), HexWord([0x0B, 0x0C], None)];
    assert [0x0B, 0x0C][..1] == [0x0B];
    assert ScanWords(long, 1, 1, end) == (Fail(LongGenericData), [0x0B]);
    var a: seq<Byte> := [0x0A];
    var ab: seq<Byte> := [0x0A, 0x0B];
    assert a + [0x0B] == ab;
    assert ScanWords(long, 0, 2, end) == (Fail(LongGenericData), ab);
    var pass := [HexWord([0x0A], None), HexWord([0x0B], None)];
    assert ScanWords(pass, 1, 0, end) == (Pass, []);
    assert a + [] == a;
    assert ScanWords(pass, 0, 1, end) == (Pass, a);
  }

  //------------ Display --------------------------------------------------------

  /** The tags with an entry in the display table: RFC 1035 and AAAA. */
  const DisplayTags: set<RRType> :=
    {A, Cname, Hinfo, Mb, Md, Mf, Mg, Minfo, Mr, Mx, Ns, Null, Ptr, Soa, Txt, Wks, Aaaa}

  /** The display table: the concrete type whose formatter a tag uses. Every
      concrete type has an entry, under the tag it is responsible for. */
  function DisplayType(t: RRType): (r: Option<Rdata.Concrete>)
    ensures r.Some? <==> t in DisplayTags
    ensures r.Some? ==> Rdata.Responsible(r.value) == t
    ensures forall k :: Rdata.Responsible(k) == t ==> r == Some(k)
  {
    match t
    case A => Some(Rdata.A)
    case Cname => Some(Rdata.Cname)
    case Hinfo => Some(Rdata.Hinfo)
    case Mb => Some(Rdata.Mb)
    case Md => Some(Rdata.Md)
    case Mf => Some(Rdata.Mf)
    case Mg => Some(Rdata.Mg)
    case Minfo => Some(Rdata.Minfo)
    case Mr => Some(Rdata.Mr)
    case Mx => Some(Rdata.Mx)
    case Ns => Some(Rdata.Ns)
    case Null => Some(Rdata.Null)
    case Ptr => Some(Rdata.Ptr)
    case Soa => Some(Rdata.Soa)
    case Txt => Some(Rdata.Txt)
    case Wks => Some(Rdata.Wks)
    case Aaaa => Some(Rdata.Aaaa)
    case _ => None
  }

  /** Formats the value as concrete type `k`; best effort: text comes only
      from a successfully parsed value, and a declined or failed re-parse
      writes nothing. */
  function Fmt<D>(decode: Decoder<D>, show: D -> string, k: Rdata.Concrete, g: GenericRecordData): (r: string)
    ensures Concrete(decode, k, g).Some? && Concrete(decode, k, g).value.Ok? ==>
      r == show(Concrete(decode, k, g).value.value)
    ensures !(Concrete(decode, k, g).Some? && Concrete(decode, k, g).value.Ok?) ==> r == ""
  {
    match Concrete(decode, k, g)
    case Some(Ok(d)) => show(d)
    case _ => ""
  }

  /** The `Display` text: formatted as the concrete type responsible for the
      stored tag, or a placeholder for tags outside the table. */
  function Display<D>(decode: Decoder<D>, show: D -> string, g: GenericRecordData): (r: string)
    ensures RType(g) !in DisplayTags ==> r == "..."
    ensures forall k :: Rdata.Responsible(k) == RType(g) ==> r == Fmt(decode, show, k, g)
  {
    match DisplayType(g.rtype)
    case Some(k) => Fmt(decode, show, k, g)
    case None => "..."
  }

  //------------ Equality -------------------------------------------------------

  /** The RFC 1035 types that equality compares as concrete values: those
      whose data can hold compressed domain names, and TXT, which holds
      character strings only but is in the source's list as well. */
  const NameTags: set<RRType> := {Cname, Mb, Md, Mf, Mg, Minfo, Mr, Mx, Ns, Ptr, Soa, Txt}

  /** The equality table: the concrete type a tag of `NameTags` is compared
      as, which is the type responsible for that tag. */
  function NameType(t: RRType): (r: Option<Rdata.Concrete>)
    ensures r.Some? <==> t in NameTags
    ensures r.Some? ==> Rdata.Responsible(r.value) == t
  {
    match t
    case Cname => Some(Rdata.Cname)
    case Mb => Some(Rdata.Mb)
    case Md => Some(Rdata.Md)
    case Mf => Some(Rdata.Mf)
    case Mg => Some(Rdata.Mg)
    case Minfo => Some(Rdata.Minfo)
    case Mr => Some(Rdata.Mr)
    case Mx => Some(Rdata.Mx)
    case Ns => Some(Rdata.Ns)
    case Ptr => Some(Rdata.Ptr)
    case Soa => Some(Rdata.Soa)
    case Txt => Some(Rdata.Txt)
    case _ => None
  }

  /** `rdata_eq`: parses both sides as `k` from fresh parsers over their
      nests and compares the outcomes, errors and declines included. */
  function RDataEq<D(==)>(decode: Decoder<D>, k: Rdata.Concrete, left: GenericRecordData, right: GenericRecordData): (r: bool)
    ensures r <==>
      decode(k, RType(left), Parser(Data(left).message, Data(left).bytes)) ==
      decode(k, RType(right), Parser(Data(right).message, Data(right).bytes))
  {
    Concrete(decode, k, left) == Concrete(decode, k, right)
  }

  /** `PartialEq::eq`: values with different tags are unequal; for a tag of
      `NameTags` the values are compared as the concrete type responsible
      for it, whatever the raw bytes; for every other tag the raw bytes are
      compared, whatever the message. */
  function Eq<D(==)>(decode: Decoder<D>, a: GenericRecordData, b: GenericRecordData): (r: bool)
    ensures RType(a) != RType(b) ==> !r
    ensures RType(a) == RType(b) && RType(a) !in NameTags ==> (r <==> Data(a).bytes == Data(b).bytes)
    ensures RType(a) == RType(b) && RType(a) in NameTags ==>
      forall k :: Rdata.Responsible(k) == RType(a) ==> (r <==> RDataEq(decode, k, a, b))
  {
    if a.rtype != b.rtype then false
    else
      match NameType(a.rtype)
      case Some(k) => RDataEq(decode, k, a, b)
      case None => a.data.bytes == b.data.bytes
  }

  //------------ Properties of display and equality ---------------------------

  /** The equality table is part of the display table and picks the same
      concrete type there. */
  lemma NameTableInDisplayTable(t: RRType)
    ensures NameType(t).Some? ==> DisplayType(t) == NameType(t)
  {
  }

  /** Equality is an equivalence relation. */
  lemma EqIsEquivalence<D>(decode: Decoder<D>, a: GenericRecordData, b: GenericRecordData, c: GenericRecordData)
    ensures Eq(decode, a, a)
    ensures Eq(decode, a, b) == Eq(decode, b, a)
    ensures Eq(decode, a, b) && Eq(decode, b, c) ==> Eq(decode, a, c)
  {
  }

  /** The assumption of RFC 3597 that equality rests on: only the concrete
      types of `NameTags` look at the message around their bytes. */
  ghost predicate CompressionOnlyInNameTypes<D>(decode: Decoder<D>)
  {
    forall k, t, m, m', b :: Rdata.Responsible(k) !in NameTags ==>
      decode(k, t, Parser(m, b)) == decode(k, t, Parser(m', b))
  }

  /** Values that compare equal display the same text, when only the
      name-bearing types resolve names against their message. */
  lemma {:induction false} EqSameDisplay<D>(decode: Decoder<D>, show: D -> string, a: GenericRecordData, b: GenericRecordData)
    requires CompressionOnlyInNameTypes(decode)
    requires Eq(decode, a, b)
    ensures Display(decode, show, a) == Display(decode, show, b)
  {
    NameTableInDisplayTable(a.rtype);
    if DisplayType(a.rtype).Some? && NameType(a.rtype).None? {
      var k := DisplayType(a.rtype).value;
      assert decode(k, a.rtype, Parser(a.data.message, a.data.bytes)) ==
        decode(k, a.rtype, Parser(b.data.message, a.data.bytes));
    }
  }

  /** A toy name decoder: in a name-bearing type, the compression pointer
      `C0 0C` stands for the five bytes at offset 12 of the enclosing
      message; everything else is taken as it is. */
  function ToyNames(k: Rdata.Concrete, t: RRType, p: Parser): Option<ParseResult<seq<Byte>>>
  {
    if Rdata.Responsible(k) in NameTags && p.rest == [0xC0, 0x0C] && |p.message| >= 17
    then Some(Ok(p.message[12..17]))
    else Some(Ok(p.rest))
  }

  /** A message with an empty header and the name `com.` at offset 12. */
  const ComMessage: seq<Byte> := [0, 0, 0, 0, 0, 0, 0, 0, 0, 0, 0, 0, 3, 99, 111, 109, 0]

  /** A message with an empty header and the name `net.` at offset 12. */
  const NetMessage: seq<Byte> := [0, 0, 0, 0, 0, 0, 0, 0, 0, 0, 0, 0, 3, 110, 101, 116, 0]

  /** A compressed and an inline CNAME for the same name compare equal; the
      same compressed bytes in two messages naming different targets do
      not; under a tag without names the same bytes compare equal in any
      message and different bytes never do. */
  lemma EqDecompresses()
    ensures Eq(ToyNames, New(Cname, Nest(ComMessage, [0xC0, 0x0C])), New(Cname, Nest([], [3, 99, 111, 109, 0])))
    ensures !Eq(ToyNames, New(Cname, Nest(ComMessage, [0xC0, 0x0C])), New(Cname, Nest(NetMessage, [0xC0, 0x0C])))
    ensures Eq(ToyNames, New(A, Nest(ComMessage, [0xC0, 0x0C])), New(A, Nest(NetMessage, [0xC0, 0x0C])))
    ensures !Eq(ToyNames, New(A, Nest(ComMessage, [0xC0, 0x0C])), New(A, Nest([], [3, 99, 111, 109, 0])))
  {
    assert ComMessage[12..17] == [3, 99, 111, 109, 0];
    assert NetMessage[12..17] == [3, 110, 101, 116, 0];
    assert Rdata.Responsible(Rdata.Cname) == Cname;
  }
}
