# mgid: a verified model of a 12-byte ObjectId-style PostgreSQL type

The `mgid` column type stores a 12-byte identifier shaped like a MongoDB
ObjectId: a 4-byte timestamp field, a 5-byte process-unique field and a
3-byte counter field. Its text form is 24 hexadecimal digits. This project
models, in Dafny, the type's layout (`mgid.h`) and the logic of `inout.c`:

- `layout.dfy` (module `Layout`): the byte type, the identifier as a
  length-12 byte sequence, and the field-width constants.
- `codec.dfy` (module `Codec`): parsing the 24-digit literal
  (`string_to_mgid`), printing it (`mg_id_out`), and the three field views
  (`mgid_get_timestamp`, `mgid_get_process_unique`, `mgid_get_counter`).
  The parser and the printers are methods with loops, proved against the
  functions `Parse` and `Hex`. All four printers share one loop, `AppendHex`.
- `compare.dfy` (module `Compare`): `memcmp` over the 12 bytes, the
  comparators `mgid_internal_cmp`, `mgid_fast_cmp` and `mgid_cmp`, and the
  six boolean operators. All are proved against `Precedes`, the unsigned
  first-difference order.
- `sortsupport.dfy` (module `SortSupport`): the abbreviated key, the class
  `MgidSortSupportState` with the two callbacks `mgid_abbrev_convert` and
  `mgid_abbrev_abort`, and a pure state machine (`State`, `ConvertStep`,
  `AbortStep`, `Run`) that specifies the callbacks. The lemmas about
  sequences of calls are stated over that state machine.
- `wrappers.dfy` (module `Wrappers`): a `Result` type. It stands in for
  `ereport`.

Modelling choices:

- A C string is a `seq<char>`. Reading at or past its end yields the
  terminating NUL (`Codec.At`), and a NUL inside the sequence ends the string
  there. So a literal is accepted when its first 24 characters are hex digits
  and the 25th character is the terminator.
- `memcmp` returns the difference of the first pair of bytes that differ.
  The C standard fixes only the sign, and every contract here speaks of the
  sign only.
- The Datum width is fixed at 8 bytes. The key is the big-endian value of
  the first 8 bytes. This is what the copy followed by
  `DatumBigEndianToNative` produces on any byte order.
- The HyperLogLog state `abbr_card` is represented by the sequence of
  8-byte prefixes it has been fed (field `abbrCard`). `estimateHyperLogLog`
  is an arbitrary function from that sequence to a `real`. The class
  receives it at construction as the constant `estimate`. The threshold
  `input_count / 2000.0 + 0.5` uses exact reals.
- The source has no routine that creates the sort-support state. The
  constructor's starting state (count 0, estimating on, nothing fed) is an
  assumption drawn from the field comments at inout.c:18-19.

## Model

| member | source | states |
|---|---|---|
| `Layout.FieldsPartition` | mgid.h:14-17 | The field widths 4 + 5 + 3 add up to the identifier length 12. |
| `Layout.FieldsRecompose` | mgid.h:14-22 | The fields [0,4), [4,9) and [9,12), concatenated, give back the whole identifier; the last one is 3 bytes long. |
| `Codec.HexValue` | inout.c:51 | The value strtoul gives one hex digit, in either case, is below 16. |
| `Codec.HexDigit` | inout.c:210 | The digit printed for a nibble is a lower-case hex digit whose value is that nibble. |
| `Codec.HexCharsTable` | inout.c:210 | The table `hex_chars` holds 16 entries, and entry n is the lower-case digit of n. |
| `Codec.DigitOfValue` | inout.c:46-51 | Printing the value of an accepted digit gives the digit lower-cased. |
| `Codec.Hex` | inout.c:215-225 | Printing n bytes gives 2n characters, all lower-case hex digits. |
| `Codec.HexAt` | inout.c:220-224 | Characters 2i and 2i+1 of the printed text are the high nibble `>> 4` and the low nibble `& 0x0F` of byte i. |
| `Codec.HexConcat` | inout.c:215-225 | Printing two byte ranges one after the other prints their concatenation. |
| `Codec.Format` | inout.c:205-228 | The text form of an identifier is exactly 24 lower-case hex digits. |
| `Codec.Parse` | inout.c:33-64 | A literal is accepted exactly when its first 24 characters are hex digits and the string ends there; the only error is the invalid-syntax error, and it carries the literal. |
| `Codec.StringToMgid` | inout.c:33-64 | The parsing loop, which advances `src` two characters per byte and writes each byte in place, returns exactly `Parse(source)`. On success, byte i is 16 times the value of digit 2i plus the value of digit 2i+1. |
| `Codec.AppendHex` | inout.c:214-225 | The shared printing loop appends, for each byte in [from, to), its two digits, and yields `Hex` of that range. |
| `Codec.MgIdOut` | inout.c:205-228 | mg_id_out returns the text form `Format` of its argument. |
| `Codec.GetTimestamp` | inout.c:347-370 | mgid_get_timestamp prints bytes [0,4) as 8 hex digits. |
| `Codec.GetProcessUnique` | inout.c:372-395 | mgid_get_process_unique prints bytes [4,9) as 10 hex digits. |
| `Codec.GetCounter` | inout.c:397-420 | mgid_get_counter prints bytes [9,12) as 6 hex digits. Its loop runs to MGID_LEN. |
| `Codec.FieldViewsSpellFormat` | inout.c:347-420 | The three field views, concatenated in order, equal the full output of mg_id_out. |
| `Codec.FieldViewsExample` | inout.c:347-420 | For 0102030405060708090a0b0c the field views are 01020304, 0506070809 and 0a0b0c. |
| `Codec.ParseFormat` | inout.c:39-56 | Parsing the printed form of any identifier gives that identifier back. |
| `Codec.FormatParse` | inout.c:215-225 | Every accepted literal has at least 24 characters, and printing what it denotes gives its first 24 characters in lower case. |
| `Codec.ParseAcceptsExactly` | inout.c:39-56 | For a C string without embedded NUL, parsing succeeds if and only if the string is exactly 24 hex digits. Shorter strings, longer strings and strings with a non-digit are all refused. |
| `Compare.MemCmp` | inout.c:69 | memcmp returns 0 exactly when the two byte strings are equal. |
| `Compare.MemCmpSign` | inout.c:66-70 | memcmp is negative exactly when a precedes b in unsigned first-difference order, and positive exactly when b precedes a. |
| `Compare.InternalCmp` | inout.c:66-70 | mgid_internal_cmp is 0 iff all 12 bytes agree, negative iff the first differing byte of arg1 is the smaller (unsigned), positive iff it is the larger. |
| `Compare.FastCmp` | inout.c:75-82 | The sort-support comparator has the same sign as the order, in all three cases. |
| `Compare.Eq` | inout.c:255-263 | `=` holds iff the identifiers are equal. |
| `Compare.Ne` | inout.c:265-273 | `<>` holds iff the identifiers differ. |
| `Compare.Lt` | inout.c:275-283 | `<` holds iff a precedes b. |
| `Compare.Gt` | inout.c:285-293 | `>` holds iff b precedes a. |
| `Compare.Le` | inout.c:295-303 | `<=` holds iff a precedes b or they are equal. |
| `Compare.Ge` | inout.c:305-313 | `>=` holds iff b precedes a or they are equal. |
| `Compare.Cmp` | inout.c:316-324 | The btree support function is 0, negative or positive exactly as the identifiers are equal, ordered a-first or ordered b-first. |
| `Compare.PrecedesTransitive` | inout.c:66-70 | The unsigned first-difference order is transitive. |
| `Compare.CmpTransitive` | inout.c:316-324 | Both `< 0` and `<= 0` of the comparator are transitive; with `OperatorsAgree` (antisymmetry, trichotomy) the comparator is a total order. |
| `Compare.CmpFirstDifference` | inout.c:66-70 | When the first k bytes agree and byte k differs, the comparator's sign is the sign of a[k] - b[k]. |
| `Compare.OperatorsAgree` | inout.c:255-324 | Exactly one of lt, eq and gt holds, and cmp(a,b) < 0 iff cmp(b,a) > 0. ne is the negation of eq, le is lt-or-eq, ge is gt-or-eq, lt(a,b) is gt(b,a), le(a,b) is ge(b,a), and the two three-way comparators agree. |
| `SortSupport.BigEndian` | inout.c:163 | The big-endian value of n bytes lies below 256^n, so 8 bytes fit an unsigned Datum. |
| `SortSupport.AbbrevKey` | inout.c:156-190 | The abbreviated key of an identifier is an unsigned 64-bit value. |
| `SortSupport.AbbrevKeyDigits` | inout.c:150-155 | The key is the sum of data[i] * 256^(7-i) for i from 0 to 7. |
| `SortSupport.BigEndianMonotone` | inout.c:179-187 | If one byte string precedes another in byte order, its big-endian value is strictly smaller. |
| `SortSupport.BigEndianInjective` | inout.c:163 | Equal-length byte strings with the same big-endian value are equal. |
| `SortSupport.KeyLessImpliesCmpLess` | inout.c:179-187 | key(a) < key(b) implies that the comparator puts a before b. |
| `SortSupport.CmpOrderedKeys` | inout.c:179-187 | cmp(a,b) <= 0 implies key(a) <= key(b): keys never contradict the comparator. |
| `SortSupport.KeyEqualIff` | inout.c:150-155 | Two keys are equal iff the identifiers share their first 8 bytes, the only case where the full comparator must decide. |
| `SortSupport.AbortStep` | inout.c:90-147 | The abort decision keeps the count and the samples, never turns estimation on, and answers true only while estimating with at least 10000 rows in memory and 10000 values seen. |
| `SortSupport.AbortGuard` | inout.c:96-97 | With fewer than 10000 rows in memory, fewer than 10000 values seen, or estimation off, the answer is false and nothing changes. |
| `SortSupport.LowCardinalityAborts` | inout.c:120-137 | With at least 10000 values seen, any estimate below 5.5 distinct keys aborts, because the threshold input_count/2000 + 0.5 is at least 5.5. |
| `SortSupport.EstimatingOnlyStops` | inout.c:107-118 | Over any sequence of calls, estimation can only go from on to off, never back. |
| `SortSupport.RunCounts` | inout.c:164-177 | Over any sequence of calls, input_count grows by exactly the number of conversions, and the estimator receives at most that many samples. |
| `SortSupport.CommittedIsAbsorbing` | inout.c:96-177 | Once estimation is off, it stays off, no later abort call answers true, and no later conversion feeds the estimator. |
| `SortSupport.MgidSortSupportState.constructor` | inout.c:16-22 | A sort starts with count 0, estimation on, and an empty estimator. This is an assumption: the source has no initialiser. |
| `SortSupport.MgidSortSupportState.AbbrevConvert` | inout.c:156-190 | Returns the big-endian key of the first 8 bytes and adds 1 to input_count. estimating is unchanged. The 8-byte prefix is appended to the estimator iff estimating was on; otherwise the estimator is unchanged. |
| `SortSupport.MgidSortSupportState.AbbrevAbort` | inout.c:90-147 | Below the guard, returns false and changes nothing. Otherwise, with estimate e: if e > 100000, turns estimation off and returns false; else if e < input_count/2000 + 0.5, returns true; else returns false. input_count and the estimator never change. |

## Left out

- `mgid_hash` and `mgid_hash_extended` (inout.c:327-343) call PostgreSQL's `hash_any` and `hash_any_extended`, whose source is not part of this model.
- `mgid_recv` and `mgid_send` (inout.c:230-252) are a plain 12-byte copy. The truncation check and the message framing live in `pq_getmsgbytes`, `pq_begintypsend` and `pq_endtypsend`, which are not part of this model.
- `mg_id_in` (inout.c:193-203) only allocates and calls `string_to_mgid`. `palloc`, the fmgr and Datum macros (mgid.h:25-28), `StringInfo` buffer management and `ereport` are host plumbing. An error is returned as a `Result` instead of a non-local exit.
- The HyperLogLog estimator is not modelled: its internals, `hash_uint32`, and the xor-fold of the 64-bit word into 32 bits (inout.c:171, 176). The estimator is represented by the 8-byte prefixes fed to it, and its estimate is an arbitrary function of them. Floating-point rounding of the estimate and of the threshold is not modelled.
- The `SIZEOF_DATUM != 8` branch (inout.c:172-173) is not modelled. `DatumBigEndianToNative` is not modelled as a machine byte swap; the key is stated directly as the big-endian value.
- The `TRACE_SORT` logging and the global `trace_sort` (inout.c:109-115, 128-135, 139-144) are diagnostics only.
- `SortSupport.MgidSortSupportState.AbbrevConvert`: `input_count` is an `int64`, but the model counts with an unbounded integer. Wrap-around after 2^63 conversions is not modelled.
- Bytes beyond ASCII: the text is a sequence of characters, not of C bytes. A non-ASCII character is refused as a non-digit, exactly as each of its UTF-8 bytes would be. Only the length reported by a C byte view would differ, and it is never observed.
