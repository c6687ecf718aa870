# DNS wire bytes and generic record data

A Dafny model of two layers of a DNS library written in Rust:

- **The byte cursor and byte sink** (`src/bits/bytes.rs`). The cursor
  (`BytesSlice` for `[u8]`) gives bounds-checked reads of 8-, 16- and 32-bit
  big-endian integers and of byte ranges. Each read returns the value and
  the unconsumed rest, or fails with `UnexpectedEnd`. The sink (`BytesBuf`
  for `Vec<u8>`) appends bytes and big-endian integers. The source converts
  byte order with `mem::transmute`; the model does it by arithmetic
  (`hi * 256 + lo` and so on).
- **Generic record data** (`src/bits/rdata.rs`). This is the record data of
  RFC 3597 ("Handling of Unknown DNS Resource Record (RR) Types"): a type tag
  together with the raw bytes of a record. It covers the three-way parse
  contract of `RecordData`, re-parsing the bytes as a concrete type,
  composing, scanning the `\# <length> <hex>` text form of section 5 of
  RFC 3597 into a sink, the `Display` dispatch table, and equality. Equality
  compares the concrete values for twelve RFC 1035 types: those whose data
  may hold compressed domain names, and TXT, which holds character strings
  only but is in the same list. For every other type it compares raw bytes.

Files and modules:

- `errors.dfy` (`Errors`): `Option`, `ParseError` and `ParseResult`.
- `bytes.dfy` (`Bytes`): the byte cursor as functions on `seq<Byte>`, and
  the sink as the class `BytesBuf` with a `bytes` field that its methods
  extend.
- `iana.dfy` (`Iana`): the record type tag `RRType`. It names the 17 tags the
  generic code dispatches on. Every other code is `Other(code)`.
- `rdata.dfy` (`Rdata`): names of the 17 concrete record data types.
- `master.dfy` (`Master`): the generic text form as already-tokenised
  scanner answers (`GenericText`), and the scan errors.
- `record_data.dfy` (`RecordData`): generic record data.

The concrete record types are parameters. `decode(R, t, parser)` stands
for `R::parse(t, parser)`. It returns `None` when `R` declines tag `t`, and
otherwise the parse outcome. `show` stands for a concrete type's `Display`.
A parser (`ParseBytes`) is the message it reads from together with its
remaining bytes; `left()` is the number of remaining bytes and
`parse_nest(len)` is `SplitBytes` on them. A nest (`Nest`) is its bytes
together with the message they came from, and `Nest::parser()` is a fresh
parser over those bytes inside that message, so a concrete type can follow
compression pointers into the message. The compose target is a
`BytesBuf`.

Notes on the code:

- The doc comment of `GenericRecordData` (src/bits/rdata.rs:54-63) says
  that composing treats compressed names specially. `compose`
  (src/bits/rdata.rs:136-138) writes the raw bytes unchanged. The model
  follows the code, so `RecordData.Compose` writes the raw bytes too.
- `split_u8` checks for an empty view itself, through `split_first`,
  instead of calling `check_len`. The behaviour is the same.
- `split_u32` and `tail` test the length a second time after `check_len`.
  The model keeps that test. It can never fail.

## Model

| member | source | states |
|---|---|---|
| Bytes.CheckLen | src/bits/bytes.rs:53-56 | succeeds iff the requested length does not exceed the view; otherwise `UnexpectedEnd` |
| Bytes.SplitU8 | src/bits/bytes.rs:21-23 | fails with `UnexpectedEnd` iff the view is empty; otherwise the first byte followed by the rest is the view |
| Bytes.SplitU16 | src/bits/bytes.rs:25-31 | fails iff fewer than 2 bytes; value is `s[0]*256 + s[1]`, rest is `s[2..]`, and re-encoding the value before the rest gives back the view |
| Bytes.SplitU32 | src/bits/bytes.rs:33-40 | fails iff fewer than 4 bytes; value is the big-endian combination of `s[0..4]`, rest is `s[4..]` of length `|s|-4`, and re-encoding gives back the view |
| Bytes.SplitBytes | src/bits/bytes.rs:42-45 | fails iff `at > |s|`; otherwise a head of length `at` whose concatenation with the rest is the view |
| Bytes.Tail | src/bits/bytes.rs:47-51 | fails iff `start > |s|`; otherwise the last `|s|-start` bytes, which follow the first `start` bytes in the view |
| Bytes.U16Bytes | src/bits/bytes.rs:73-77 | the network-order encoding of a 16-bit value is two bytes that decode to that value |
| Bytes.U32Bytes | src/bits/bytes.rs:79-83 | the network-order encoding of a 32-bit value is four bytes that decode to that value |
| Bytes.BeU16Bytes | src/bits/bytes.rs:28-30 | decoding two bytes and encoding the value gives back the same two bytes |
| Bytes.BeU32Bytes | src/bits/bytes.rs:37-39 | decoding four bytes and encoding the value gives back the same four bytes |
| Bytes.SplitPushU8 | src/bits/bytes.rs:68-71 | reading a byte back from what `push_u8` appended yields that byte and the untouched rest |
| Bytes.SplitPushU16 | src/bits/bytes.rs:73-77 | reading a 16-bit value back from what `push_u16` appended yields that value and the untouched rest |
| Bytes.SplitPushU32 | src/bits/bytes.rs:79-83 | reading a 32-bit value back from what `push_u32` appended yields that value and the untouched rest |
| Bytes.Endianness | src/bits/bytes.rs:25-31 | `[0x01, 0x02]` reads as 0x0102, and 0x0102 is written as `[0x01, 0x02]` |
| Bytes.BytesBuf.Reserve | src/bits/bytes.rs:87 | the capacity hint changes nothing observable |
| Bytes.BytesBuf.PushBytes | src/bits/bytes.rs:88-90 | appends the data verbatim after the unchanged old contents |
| Bytes.BytesBuf.PushU8 | src/bits/bytes.rs:68-71 | appends exactly the one byte |
| Bytes.BytesBuf.PushU16 | src/bits/bytes.rs:73-77 | appends exactly 2 bytes, old contents unchanged, which decode big-endian to the value |
| Bytes.BytesBuf.PushU32 | src/bits/bytes.rs:79-83 | appends exactly the 4 big-endian bytes of the value, old contents unchanged |
| RecordData.New | src/bits/rdata.rs:72-80 | `rtype()` and `data()` of a new value return the tag and the nest it was made from |
| RecordData.RType | src/bits/rdata.rs:77 | the tag returned, with the stored nest, rebuilds the value; the trait's `rtype()` at src/bits/rdata.rs:132-134 is the same accessor |
| RecordData.Data | src/bits/rdata.rs:80 | the nest returned, with the stored tag, rebuilds the value |
| RecordData.Concrete | src/bits/rdata.rs:85-88 | the result is `R::parse` under the stored tag from a fresh parser over the nest, in the nest's message; for a type that declines by tag, it is `None` exactly when the type declines the stored tag |
| RecordData.Parse | src/bits/rdata.rs:140-147 | for a parser whose `left()` is the number of bytes it holds, generic parse never declines and never fails; it captures every byte left in the parser, with the parser's message, under the given tag and leaves the parser empty in the same message |
| RecordData.ParseKeepsContract | src/bits/rdata.rs:36-42 | generic parse keeps the `RecordData::parse` contract: a parsed value leaves the parser in the same message with a suffix of its bytes |
| RecordData.ConcreteAfterParse | src/bits/rdata.rs:85-88 | re-parsing captured data as `R` is `R::parse` of the original tag over exactly the record's original bytes in the original message |
| RecordData.Compose | src/bits/rdata.rs:136-138 | appends the nest's bytes verbatim to the target |
| RecordData.ReEmit | src/bits/rdata.rs:131-148 | parsing a record as generic data and composing it into an empty sink yields the bytes left in the parser unchanged |
| RecordData.PushWord | src/bits/rdata.rs:106-113 | the per-byte callback pushes bytes while the count is above zero and reports `LongGenericData` exactly when the word brings more bytes than remain |
| RecordData.ScanHexWords | src/bits/rdata.rs:105-114 | the counting loop returns the outcome of the scan and appends exactly the bytes the scan pushes |
| RecordData.ScanInto | src/bits/rdata.rs:99-116 | the whole scan returns the outcome of the scan and appends exactly the bytes the scan pushes; header failures are passed on |
| RecordData.ScanWords | src/bits/rdata.rs:105-114 | never more bytes than declared, pushed in input order; success means exactly the declared count; `LongGenericData` means exactly the declared count was pushed and more bytes were delivered |
| RecordData.ScanWordsExact | src/bits/rdata.rs:105-114 | fault-free words that deliver exactly the declared count are pushed whole and the scan succeeds |
| RecordData.ScanWordsBoundary | src/bits/rdata.rs:105 | when the count reaches zero exactly at the end of a word, after fault-free words, the scan succeeds with those words pushed, whatever words follow |
| RecordData.ScanWordsOverrun | src/bits/rdata.rs:106-107 | when a word brings a byte after the count reached zero, following fault-free words, the scan fails with `LongGenericData` after pushing exactly the declared count of delivered bytes |
| RecordData.ScanWordsFault | src/bits/rdata.rs:106 | when a word, reached with the count above zero and not overrunning it, carries a scanner fault after fault-free words, that fault is passed on after pushing every byte up to and including that word |
| RecordData.ScanWordsRunOut | src/bits/rdata.rs:105-106 | when fault-free words end while the count is still above zero, the scanner's end-of-input error is passed on after pushing everything delivered |
| RecordData.ScanGeneric | src/bits/rdata.rs:99-116 | a failure to skip `\#` or to read the length is passed on and pushes nothing; after the header, the hex words are scanned with the declared length, so everything `ScanWords` and its lemmas state holds for the whole form |
| RecordData.ScanGenericEmpty | src/bits/rdata.rs:103-105 | a declared length of 0 succeeds and pushes nothing |
| RecordData.ScanGenericExamples | src/bits/rdata.rs:105-113 | `\# 2 0A0B` pushes `[0x0A, 0x0B]`; `\# 1 0A0B` fails with `LongGenericData` after pushing one byte |
| RecordData.ScanGenericWordExamples | src/bits/rdata.rs:105-113 | `\# 2 0A 0B0C` fails with `LongGenericData` in the second word after pushing `[0x0A, 0x0B]`; `\# 1 0A 0B` succeeds after the first word |
| RecordData.DisplayType | src/bits/rdata.rs:155-179 | the display table has an entry exactly for the 17 RFC 1035 and AAAA tags; each entry is the concrete type responsible for its tag, and every concrete type is the entry for its own tag |
| RecordData.NameType | src/bits/rdata.rs:195-208 | the equality table has an entry exactly for the 12 listed RFC 1035 tags, and each entry is the concrete type responsible for its tag |
| RecordData.NameTableInDisplayTable | src/bits/rdata.rs:196-207 | each tag of the equality table selects the same concrete type as in the display table |
| RecordData.Fmt | src/bits/rdata.rs:119-127 | the text of a successfully re-parsed value is that value's `show`; a declined or failed re-parse writes nothing |
| RecordData.Display | src/bits/rdata.rs:151-181 | a tag outside the table displays `...`; a tag in the table is formatted as the concrete type responsible for it |
| RecordData.RDataEq | src/bits/rdata.rs:215-220 | holds iff parsing both sides as the concrete type, each from a fresh parser over its nest in its own message, gives equal outcomes |
| RecordData.Eq | src/bits/rdata.rs:184-211 | different tags are never equal; for the 12 listed tags equality holds iff the concrete type responsible for the tag parses both sides to equal outcomes, whatever the raw bytes; for every other tag it holds iff the raw bytes are equal, whatever the messages |
| RecordData.EqIsEquivalence | src/bits/rdata.rs:190-211 | equality is reflexive, symmetric and transitive |
| RecordData.EqSameDisplay | src/bits/rdata.rs:184-211 | when only the 12 listed types look at the message around their bytes, values that compare equal display the same text |
| RecordData.EqDecompresses | src/bits/rdata.rs:185-189 | with a name decoder, a compressed and an inline CNAME of the same name are equal, the same compressed bytes in two messages naming different targets are not, and under a tag without names equal bytes are equal in any message and different bytes are not |

## Left out

- The zone-file scanner (`master::Stream`: `skip_literal`, `scan_u16`, `scan_hex_word`, reading text through `io::Read`). It is an external collaborator. Its answers are the input `GenericText`, and its own failures are opaque `StreamError` codes that are passed on unchanged.
- The internals of `Nest`, `ParseBytes` and `ComposeBytes`. A parser is its message and its remaining bytes, a nest is its message and its bytes, and the compose target is the `BytesBuf` sink. Positions inside the message are not tracked, since a compression pointer is an offset from the start of the message.
- RecordData.Parse: a parser whose `left()` claims more bytes than it holds (a record length larger than the message) is not modelled. `left()` is the number of bytes the parser holds, so the `parse_nest` error passed on at src/bits/rdata.rs:144 cannot arise and the model's parse never fails.
- RecordData.Compose: returns no `ComposeResult`. A compose target that can refuse bytes (a message size limit) is not part of this model, so composing cannot fail here.
- The field layouts, parsers and formatters of the concrete record types (`rdata::*`). They are the `decode` and `show` parameters.
- The rest left behind in the parser by a concrete type's parse. The core always parses from a fresh parser and discards it.
- Name decompression. It lives in the concrete types, which receive the message through the parser. The model shows only that equality routes the listed tags through the decoder.
- Eq, EqIsEquivalence, EqSameDisplay: the `PartialEq` of a concrete type is modelled as equality of its decoded values. A concrete type whose `PartialEq` is not an equivalence (or differs from the identity of what it displays) is not part of this model. EqSameDisplay additionally requires that only the 12 listed types look at the message around their bytes, as RFC 3597 section 4 allows compression only in RFC 1035 types; for any other type, equal bytes in two messages could otherwise decode differently.
- `fmt::Formatter` mechanics: a write error from a concrete type's `Display`, and the width and padding flags that apply to the `...` placeholder. `show` gives text and cannot fail.
- Borrow lifetimes of the nest relative to the message it was parsed from. Values here are immutable and garbage-collected.
- The 64-bit width of `usize` for `at`, `start` and `len`. These are `nat`. Every comparison with them is against a sequence length, so the width does not matter.
- The numeric codes of the named tags. `Other(code)` is not identified with the named tags, even when `code` is their IANA number.
