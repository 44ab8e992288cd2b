# libsdb client core in Dafny

A model of the core of libsdb, a C client library for Amazon SimpleDB.
The model covers:

- the request parameter sets: allocation, ownership, adding, deep copy and freeing;
- request assembly for every command (Action, Timestamp, the command's own fields, an optional NextToken, SignatureVersion, Version, AWSAccessKeyId);
- signing: version 0 and version 1, with the case-insensitive key order;
- export as a URL-encoded form body;
- the receive buffer that collects the server's reply;
- the XML response parser: errors, metadata, domain lists, attribute lists, item lists and domain metadata;
- the result-set record, with the continuation token kept by each fetched page;
- the single-call execution paths with their retry loops and automatic NEXT handling (`sdb_execute`, `sdb_execute_rs`, `sdb_next`);
- the multi-call (deferred) path: the handle pool, `sdb_execute_multi`, `sdb_multi_run` and `sdb_multi_count_errors`;
- the error-code scheme of `include/sdb.h` and the command statistics.

Everything is modelled as pure values. Transfers, the clock, the HMAC and base64 primitives and the XML tree come in as parameters:

- curl's transfer result is an `Attempt`: a curl code, a body and a parsed document.
- OpenSSL is a `Crypto` value with a `mac` and an `encode` function.
- libxml is a `Node` tree.
- `curl_multi` is a `Round`: a drain status and the messages it delivers.

C `assert` failures and undefined behaviour are explicit outcomes, so the model can say when they happen. Where the source has a defect, a `Build` parameter (`AsWritten` or `Corrected`) selects the behaviour; see "## Findings".

Modules, in dependency order:

| file | module | what |
|---|---|---|
| wrappers.dfy | Wrappers | `Option` |
| errors.dfy | Errors | return codes, AWS error names, `SDB_SAFE` |
| text.dfy | Text | decimal rendering of naturals |
| params.dfy | Params | `struct sdb_params` and its operations |
| xml.dfy | Xml | the parsed XML tree |
| responses.dfy | Responses | `struct sdb_response` and its page chain |
| keyorder.dfy | KeyOrder | `strcasecmp` order, sorting, the pointer-compare defect |
| signer.dfy | Signer | `sdb_sign`, `sdb_params_sign`, base64 |
| numbers.dfy | Numbers | `strtol`, the `GET_LONG` macro, `digits`, 32-bit wrap |
| commands.dfy | Commands | command parameter sets, request assembly, configuration |
| parser.dfy | Parser | `response.c` parsing |
| stats.dfy | Stats | statistics counters and size estimates |
| formbody.dfy | FormBody | URL encoding and `sdb_params_export` |
| single.dfy | Single | `sdb_execute`, `sdb_execute_rs`, retry loops, `sdb_next` |
| receive.dfy | Receive | the receive buffer and `sdb_write_callback` |
| pool.dfy | Pool | the multi-handle chain and free list |
| multi.dfy | Multi | `sdb_execute_multi`, `sdb_multi_run`, `sdb_multi_count_errors` |

## Model

| member | source | states |
|---|---|---|
| Errors.CurlError | include/sdb.h:105 | a positive curl code maps below -1000, and the code can be recovered from the library code |
| Errors.CurlmError | include/sdb.h:106 | a positive curl-multi code maps below -1500, and the code can be recovered |
| Errors.AwsError | include/sdb.h:107 | each service-error index maps into the band (-2042, -2000], and the index can be recovered from the code |
| Errors.CodeFamiliesDisjoint | include/sdb.h:88-107 | curl, curl-multi and service codes never collide; curl codes lie below RETRY_FAILED and outside the service band |
| Errors.AccessFailureOnlyFirst | private.c:49-91 | "AccessFailure" is entry 0 of the error-name table and appears nowhere else |
| Errors.ServiceUnavailableLast | private.c:51-91 | "ServiceUnavailable" is entry 35 and no later entry repeats it, so the last-match lookup finds 35 |
| Errors.NamedCodesConsecutive | include/sdb.h:109-154 | the 42 named service codes are consecutive: the i-th named code is AwsError(i), with SERVICE_UNAVAILABLE at 35 and DUPLICATE_ITEM_NAME at 41 |
| Errors.AwsErrorNameAsWritten | include/sdb.h:110 | with the 41-entry table, only DUPLICATE_ITEM_NAME has no name (the read goes past the array); codes outside the band give "UnknownError" |
| Errors.AwsErrorName | include/sdb.h:110 | a code in the service band names its table entry; any other code gives "UnknownError" |
| Errors.AwsErrorNameAgrees | include/sdb.h:110 | every named code has a real name, and the as-written and corrected lookups agree on the first 41 |
| Errors.DuplicateItemNameUnnamedAsWritten | private.c:51-91 | the table as written has 41 names for 42 codes, so DUPLICATE_ITEM_NAME has no name |
| Errors.SuccessFailedComplementary | include/sdb.h:160-161 | a code is a success exactly when it is not a failure, and success means OK |
| Errors.Safe | include/sdb.h:163 | a chain of `SDB_SAFE` steps is OK exactly when every step succeeds; otherwise it returns the first failing step's code |
| Text.Show | util.c:102-108 | a natural is rendered as at least one decimal digit with no leading zero, and the digits read back to the number |
| Text.ShowInjective | util.c:102-108 | different numbers render differently |
| Params.Alloc | private.c:335-342 | a new set is empty, valid and has the requested capacity |
| Params.Add | private.c:376-387 | a full set is refused with CAPACITY_TOO_SMALL and left unchanged; otherwise exactly one pair, owned by the set, is appended after the existing ones |
| Params.Borrowed | private.c:397-411 | the pairs taken from another set keep their keys and values and stay owned by that set |
| Params.AddAll | private.c:397-411 | a set that cannot hold the other set's pairs is refused unchanged; otherwise the other set's entries are appended and remain owned by it |
| Params.Free | private.c:350-365 | freeing releases exactly the pairs the set owns, never the borrowed ones |
| Params.FreeAfterAdd | private.c:350-387 | after an add, freeing releases the earlier owned pairs plus the new pair |
| Params.FreeAfterAddAll | private.c:350-411 | after add_all, freeing releases the same pairs as before, none of which belong to the other set |
| Params.DeepCopy | private.c:580-590 | a NULL set copies to NULL; otherwise the copy is a new set with the same capacity |
| Params.AddEachCopies | private.c:585-588 | the copy loop appends the source entries in order, keeps the existing pairs and owns every pair it adds |
| Params.DeepCopyFaithful | private.c:580-590 | a deep copy has the same entries as the original and owns all of them |
| Params.AddRequired | private.c:564-571 | SignatureVersion, Version "2007-11-07" and AWSAccessKeyId are appended in that order, or CAPACITY_TOO_SMALL when three more pairs do not fit |
| Xml.FirstText | response.c:568-571 | the content of the first child, present exactly when that child carries text |
| Responses.Tag | include/sdb.h:182-186 | each payload kind has its own type tag in 0..4 |
| Responses.Init | response.c:49-64 | a fresh response has no result, no error, no more pages, return code OK and one empty page |
| Responses.PrepareAppend | response.c:163-177 | appending a page keeps the payload, the more-pages flag and the error count, and resets error, message and code; the new head takes over params and command, and the old head loses them |
| Responses.ContinuationToken | response.c:163-177 | the most recent recorded token is the head's token when it has one, and there is none only when no page has a token |
| Responses.PrepareAppendKeepsToken | response.c:163-177 | appending keeps the continuation token and continuability, but leaves the head page without a token |
| Responses.InitContinuable | response.c:49-64 | a fresh response is continuable and records no token |
| Responses.HeadToken | private.c:790-794 | the head's token, when there is one, is the continuation token; the two differ only when older pages exist and the head has no token |
| KeyOrder.LexLeTotal | private.c:421-424 | the case-insensitive key order is total |
| KeyOrder.LexLeTrans | private.c:421-424 | the case-insensitive key order is transitive |
| KeyOrder.LexLeAntisym | private.c:421-424 | keys that order both ways fold to the same string |
| KeyOrder.InsertBy | private.c:433-437 | inserting into a sorted sequence gives a sorted sequence with the element added |
| KeyOrder.SortBy | private.c:433-437 | the result is sorted and a permutation of the input |
| KeyOrder.SortedUnique | private.c:433-437 | when the folded keys are distinct, two sorted permutations of the same pairs are equal |
| KeyOrder.SortByKey | private.c:433-437 | the intended qsort: sorted by case-insensitive key, a permutation, and the only such arrangement when the folded keys are distinct |
| KeyOrder.PointerText | private.c:421-424 | what `strcasecmp` sees when handed a pointer's bytes: at most eight non-NUL bytes |
| KeyOrder.SortAsWritten | private.c:421-437 | the sort as written permutes the pairs by their addresses' bytes |
| KeyOrder.SortAsWrittenMisorders | private.c:421-437 | Alpha at address 2 and Zeta at address 1 come out as Zeta, Alpha, which is not sorted by key |
| Signer.Base64 | util.c:58-92 | the encoder fails (returns 0) exactly when the text is empty or when the BIO text plus its trailing newline does not fit strictly inside olength (util.c:74); otherwise it returns the text without the newline and its length, with room left for the NUL |
| Signer.Sign | private.c:313-326 | either OK with the base64 of the HMAC of the data (1..127 characters) or OPEN_SSL_FAILED with no signature |
| Signer.SignParams | private.c:449-496 | version 0 signs the Action and Timestamp values and leaves the set alone; version 1 sorts with the corrected case-insensitive key comparison and signs the key+value concatenation; other versions give INVALID_SIGNATURE_VER; the set keeps its pairs, length and capacity |
| Signer.SignatureOrderIndependent | private.c:449-496 | under version 1 with distinct folded keys, the signature and the sorted pairs do not depend on the order the pairs were added |
| Signer.Canonical0 | private.c:456-467 | the version-0 string is the Action value immediately followed by the Timestamp value |
| Signer.Canonical1 | private.c:473-491 | the version-1 string is empty for no pairs and otherwise starts with the first pair's key and value |
| Signer.Canonical1Append | private.c:486-489 | the version-1 string of two runs of pairs is the first run's string followed by the second's, so every pair contributes its key and value in order |
| Numbers.SpaceRun | response.c:581-597 | the leading run of white space that strtol skips, and it stops at the first non-space |
| Numbers.DigitRun | response.c:581-597 | the leading run of digits, stopping at the first non-digit |
| Numbers.Clamp | response.c:581-597 | values outside the C long range saturate to LONG_MIN or LONG_MAX; values inside it are unchanged |
| Numbers.Strtol | response.c:581-597 | the value parsed is always a C long and the rest is a suffix of the input |
| Numbers.GetLong | response.c:581-597 | the macro accepts exactly when strtol leaves "" or ".0" behind, and then yields strtol's value |
| Numbers.StrtolOfDigits | response.c:581-597 | digits followed by a non-digit tail read as their value, saturated, with the tail left |
| Numbers.StrtolOfNegative | response.c:581-597 | a minus sign followed by digits reads as the negated value, saturated |
| Numbers.GetLongRoundTrip | response.c:581-597 | any C long written in decimal, with or without ".0", reads back exactly |
| Numbers.GetLongRejectsTrailingText | response.c:581-597 | "12x", "12.5" and " x" are refused |
| Numbers.DigitCount | util.c:102-108 | there is at least one digit, even for 0 |
| Numbers.DigitCountBounds | util.c:102-108 | for n ≥ 1 with d digits in base b, b^(d-1) ≤ n < b^d |
| Numbers.Digits | util.c:102-108 | the loop returns the digit count: 1 below the base, otherwise d with base^(d-1) ≤ num < base^d |
| Numbers.ToInt32 | sdb.c:427 | the value a 32-bit two's-complement int holds: congruent to the input modulo 2^32, in [-2^31, 2^31), and equal to the input when it is in range; it stands for the `int` product `delay * 1000`, which C leaves undefined when it overflows |
| Commands.AttributeFields | sdb.c:687-702 | one entry per attribute per field (Name, Value, and Replace for replace) |
| Commands.NameFields | sdb.c:837-851 | one entry per requested key (what each key finds is Commands.NameFieldsReadBack) |
| Commands.BatchFields | sdb.c:744-767 | as many entries as one ItemName per item plus one per field for each attribute of each item (what each key finds is Commands.BatchFieldsReadBack) |
| Commands.AddPairs | sdb.c:692-699 | the entries are appended when they fit; otherwise CAPACITY_TOO_SMALL |
| Commands.Prepare | sdb.c:581-970 | each command builds a valid set holding exactly its own fields, with the capacity the source allocates |
| Commands.Fields | sdb.c:581-970 | only ListDomains sends no fields of its own; every command on a domain names it with DomainName in one of its first two fields |
| Commands.Capacity | sdb.c:581-970 | every command allocates at least 8 slots, and always room for all its own fields |
| Commands.SingleIsMany | sdb.c:643-907 | put, replace, get and query-attribute send the same fields as the one-element forms of their _many variants |
| Commands.LookupDistinct | sdb.c:687-702 | in a list with distinct keys, looking up a key finds its own value |
| Commands.AttributeKeyInjective | sdb.c:696-699 | the numbered keys "Attribute.i.Field" determine both the index and the field |
| Commands.AttributeFieldsDistinct | sdb.c:687-702 | the attribute keys of one request are pairwise distinct |
| Commands.AttributeFieldsLookup | sdb.c:687-702 | Attribute.i.Name and Attribute.i.Value look up to the i-th attribute's name and value |
| Commands.AttributeFieldsAbsent | sdb.c:687-702 | keys with an out-of-range index or an unknown field are absent |
| Commands.AttributeFieldsReadBack | sdb.c:687-732 | the server can read back each attribute's name and value, and Replace is "true" exactly for the replace forms |
| Commands.NameFieldsReadBack | sdb.c:837-851 | the AttributeName.i keys are distinct; AttributeName.i finds the i-th requested key, and is absent past the last one |
| Commands.NameKeyInjective | sdb.c:846-848 | different indices give different AttributeName keys |
| Commands.ItemFields | sdb.c:758-764 | one item contributes its ItemName plus one entry per field for each of its attributes |
| Commands.LookupNone | sdb.c:687-702 | a key finds nothing exactly when no entry carries it |
| Commands.LookupAppend | sdb.c:744-767 | a key looked up in a concatenation is found in the front part if it is there, and otherwise in the back part |
| Commands.LookupPrefixed | sdb.c:758-764 | putting the Item.i. prefix in front of every key keeps what each key finds |
| Commands.BatchFindAt | sdb.c:758-764 | what item number a sends under its own prefix is also what the whole batch sends under that key, since earlier items use other prefixes |
| Commands.BatchFieldsDistinct | sdb.c:744-767 | all the keys of a batch request are pairwise distinct |
| Commands.BatchItemNameLookup | sdb.c:758-759 | Item.t.ItemName finds the t-th item's name |
| Commands.BatchAttributeLookup | sdb.c:760-763 | Item.t.Attribute.j.Field finds that field of the t-th item's j-th attribute |
| Commands.BatchFieldsReadBack | sdb.c:744-767 | the server can read back every item's name and each attribute's name and value, and Replace is "true" for the replace form |
| Commands.Assemble | private.c:685-698 | the request always assembles: Action, Timestamp, the command's fields, an optional NextToken, then SignatureVersion, Version and AWSAccessKeyId, with a slot left for Signature |
| Commands.InitConfig | sdb.c:126-192 | a new handle signs with version 0, retries 10 times with a 5000 µs delay, and fetches further pages automatically |
| Commands.SetRetry | sdb.c:421-428 | negative counts and delays become 0 and a non-negative count is kept; a delay of up to 2147483 ms becomes that many thousand microseconds; any larger delay overflows the `int` product `delay * 1000` before it reaches the `long` retry_delay (sdb_private.h:189), and the model keeps the 32-bit wrapped value; nothing else changes |
| Commands.SetRetryWraps | sdb.c:421-428 | a delay of 2147484 ms overflows the `int` product; with the wrap-around the model takes, the stored delay is negative |
| Commands.SetAutoNext | sdb.c:437-440 | automatic NEXT is on exactly when the value is non-zero, and nothing else changes |
| Parser.ScanTable | response.c:358-363 | a scan over the whole table finishes; a scan past the end of a shorter table has no result; a result other than the start value is a matching index inside the scanned range |
| Parser.ScanTableLastMatch | response.c:358-363 | the scan keeps the last matching index, or the start value if nothing matches |
| Parser.CodeIndexCorrected | response.c:358-370 | with 42 names the code is in 1..42; it is 42 exactly when no entry after 0 matches, and no later entry matches it |
| Parser.CodeIndex | response.c:358-370 | there is a result exactly when the table has all 42 entries the loop reads; it lies in 1..42, and below 42 it is an index whose name matches |
| Parser.CodeIndexAsWrittenUndefined | response.c:358-363 | with 41 names the scan always reads past the end of the table |
| Parser.CodeIndexExamples | response.c:358-370 | "ServiceUnavailable" gives 35; "AccessFailure" (index 0) is reported as 42 |
| Parser.ErrorFields | response.c:349-404 | inside one Error, an error once set is kept and so is a first message; only the error and the message change; a rejection is INVALID_ERR_RESPONSE; the corrected parse is never undefined |
| Parser.ErrorFieldsStrayRefused | response.c:395-403 | a child other than Code, Message or BoxUsage means the Error does not parse, and as the first child it is INVALID_ERR_RESPONSE |
| Parser.ErrorFieldsFirstCode | response.c:353-373 | with no error yet recorded, the first Code child sets the error to that code's table index, whatever the other children are |
| Parser.ParseErrors | response.c:338-424 | each Error element adds one to the error count; an error or message once set is kept; the only rejection is INVALID_ERR_RESPONSE; the corrected parse is never undefined |
| Parser.ParseErrorsStrayRefused | response.c:410-420 | a child of Errors other than Error or BoxUsage means the section does not parse; as written, any child other than Error |
| Parser.ParseErrorsFirstCode | response.c:346-373 | when the first Error begins with a Code, the corrected parse records that code's index, whatever follows |
| Parser.SingleErrorCode | response.c:338-424 | one Error with one Code sets the error to that code's index and counts one error |
| Parser.ErrorsAsWrittenUndefined | response.c:412 | as written, a lone BoxUsage child or a code lookup is undefined behaviour; the corrected parse accepts both |
| Parser.ParseMetadata | response.c:434-475 | RequestId and BoxUsage leave the response as it was; any other child is INVALID_META_RESPONSE; it is never undefined |
| Parser.CountPass | response.c:493-530 | the counting pass counts the list elements and finds the last NextToken, present exactly when there is one |
| Parser.LastToken | response.c:508-514 | a token found is the text of some NextToken element; no token means no NextToken element carries text |
| Parser.WithToken | response.c:508-514 | more pages are flagged exactly when a token was found, and the head records it |
| Parser.NamedTexts | response.c:561-575 | one text per named element |
| Parser.ParseDomains | response.c:485-578 | more pages exactly when a NextToken is present, recorded in the head; earlier domains stay first, followed by the new ones; a result of another type aborts |
| Parser.ParseAttribute | response.c:742-787 | reading an attribute fails only with INVALID_META_RESPONSE or an abort |
| Parser.AttributeStrayRefused | response.c:770-775 | a child other than Name or Value means the attribute is not read |
| Parser.AttributeFieldsRequired | response.c:779-786 | with no Name child, or no Value child, the attribute is not read |
| Parser.AttributeReadBack | response.c:746-767 | a read attribute holds the text of the last Name child and of the last Value child, "" for a Value with no children |
| Parser.AttributeExamples | response.c:742-787 | an empty Value gives ""; a missing Name, a missing Value or a stray child is rejected |
| Parser.ReadAttributes | response.c:660-793 | one attribute per Attribute element |
| Parser.ParseAttributes | response.c:660-793 | the domain-list properties, for attribute lists |
| Parser.ItemFields | response.c:804-907 | an item's attribute list grows by one per Attribute child |
| Parser.ParseItem | response.c:804-907 | an item with an invalid child is rejected; otherwise its size is its number of Attribute children |
| Parser.ReadItems | response.c:917-1021 | one item per Item or ItemName element |
| Parser.ItemNameEntry | response.c:999-1006 | an ItemName gives an item with no attribute array and size 0 |
| Parser.ParseItems | response.c:917-1021 | the domain-list properties, for item lists |
| Parser.MetadataValues | response.c:609-650 | only the seven metadata fields are set, each a C long |
| Parser.MetadataRefused | response.c:589-596 | a metadata field whose text GET_LONG refuses, or a child that is neither a field nor ignored, fails the read |
| Parser.MetadataReadBack | response.c:621-647 | each field holds GET_LONG of the text of the last element of its name; fields no element names keep their value; no other key appears |
| Parser.ParseDomainMetadata | response.c:609-650 | accepted only into an empty result (otherwise abort); only the seven fields appear, and the rest of the response is unchanged |
| Parser.DomainMetadataReadBack | response.c:581-650 | the fields read are exactly the metadata elements present, each GET_LONG of its last element's text; a refused text or a stray child fails the parse |
| Parser.DomainMetadataField | response.c:581-650 | a field written as a decimal long, with or without ".0", reads back exactly; one ending in ".5" is rejected |
| Parser.GetLongRejectsSuffix | response.c:581-597 | a fractional part other than ".0" is refused |
| Parser.Section | response.c:245-328 | an unknown top-level element is INVALID_ERR_RESPONSE, an ignored one changes nothing, and no section is undefined |
| Parser.Sections | response.c:245-328 | any unknown top-level element makes the whole parse fail; the error index stays in 0..42 |
| Parser.Parse | response.c:245-328 | no document is INVALID_XML_RESPONSE; a rejection is one of the three parse errors; the error index stays in 0..42 |
| Parser.AppendKeepsTag | response.c:245-328 | parsing a further page never changes the response's type |
| Parser.SectionContinuable | response.c:245-328 | after any section, a response flagged as having more pages records a token |
| Parser.SectionsContinuable | response.c:245-328 | the same holds for a whole document |
| Parser.SectionsKeepCall | response.c:245-328 | parsing a document never changes the command and parameters a response records |
| Stats.AddStatistics | private.c:1121-1131 | adding zero counters changes nothing; the sum has no counter below the first operand's exactly when every counter of the second is non-negative |
| Stats.AddStatisticsMonoid | private.c:1121-1131 | adding statistics is commutative and associative, with zero as identity |
| Stats.EstimateSentDigits | private.c:1142-1154 | the estimated sent overhead is 159 bytes plus the number of decimal digits of the post size |
| Stats.EstimateSent | private.c:1142-1154 | the estimate is at least 160 bytes, and exactly 160 for post sizes below 10 |
| Stats.UpdateSizeStats | private.c:1078-1091 | the payload counters grow by exactly the two sizes; the overheads grow by at least the estimates, and by more exactly when the post exceeds 1024 bytes; the command counters are untouched |
| Stats.CommandDelta | private.c:719-723 | one command adds one command, one put exactly when its name starts with "Put", no retries, and its payload sizes |
| Stats.CountCommand | private.c:719-722 | counting adds one command, and one put exactly when the command starts with "Put"; nothing else changes |
| Stats.RecordCommand | private.c:719-723 | one more command, one more put exactly when the name starts with "Put", no retry, and the payload counters grow by the two sizes |
| Stats.RecordCommandIsDelta | private.c:719-723 | recording a command adds exactly that command's delta |
| Stats.RecordCommandsCommute | private.c:719-723 | the order in which two commands are recorded does not matter |
| FormBody.HexDigit | private.c:541-548 | every hex digit decodes back to its value |
| FormBody.EncodeByte | private.c:541-548 | a byte encodes to 1..3 characters, none of them '&' or '=' |
| FormBody.PercentEncode | private.c:541-548 | the encoding is at most three times as long and contains no '&' or '=' |
| FormBody.PercentRoundTrip | private.c:541-548 | percent-decoding the encoding gives back the value |
| FormBody.CurlEscape | private.c:541-546 | the escape succeeds exactly for byte strings, and its output decodes back |
| FormBody.Body | private.c:534-551 | the body fails exactly when some value cannot be escaped, and starts with the first field |
| FormBody.BodyFits | private.c:518-551 | the body and its NUL fit in the buffer the export allocates |
| FormBody.Export | private.c:507-555 | sign, append Signature, then build the body; OK exactly when there is a body; CAPACITY_TOO_SMALL exactly when signing succeeded and the set was full; URL_ENCODE_FAILED exactly when escaping fails |
| FormBody.ExportSignatureLast | private.c:507-555 | on success Signature is the last entry of the exported set |
| FormBody.ExportDecodes | private.c:507-555 | with an escaper whose output decodes back and keys that need no escaping, a successful export's body decodes to the signed set's entries followed by the Signature entry |
| FormBody.DecodeSigned | private.c:534-551 | the body of the signed pairs plus the Signature pair decodes to their entries in order |
| FormBody.PermutedKeysPlain | private.c:433-437 | reordering the pairs keeps every key free of characters that need escaping |
| FormBody.Post | private.c:621-627 | there is a post body exactly when export succeeds |
| FormBody.IndexOf | private.c:534-551 | the position of the first separator, or the length if there is none |
| FormBody.BodyRoundTripWith | private.c:534-551 | with any escaper whose output decodes back, the body decodes to the set's entries |
| FormBody.BodyRoundTrip | private.c:534-551 | with curl's escaper, any set of byte-string values exports to a body that decodes to its entries |
| Receive.Fresh | sdb.c:168 | a new receive buffer is empty with capacity 64 KiB |
| Receive.Reset | private.c:708 | resetting empties the buffer and keeps its capacity |
| Receive.Write | private.c:639-670 | every byte is taken and appended; the capacity grows to twice the needed size plus 4096 only when it has to |
| Receive.ReceiveAll | private.c:639-670 | a sequence of callbacks leaves exactly the concatenated chunks, reports every byte taken, and never shrinks the buffer |
| Single.Request | private.c:685-700 | a request has a body exactly when export succeeds; failures are INVALID_SIGNATURE_VER, OPEN_SSL_FAILED or URL_ENCODE_FAILED; Signature is the last parameter |
| Single.Interpret | private.c:1005-1047 | an html reply is AWS_INTERNAL_ERROR_2 and keeps the previous pages; no document is INVALID_XML_RESPONSE; a response survives only on OK or SERVICE_UNAVAILABLE, and then records the same call as the previous pages |
| Single.InterpretStatuses | private.c:1005-1047 | a reported service error is the error index of the parsed reply |
| Single.ContinueToken | private.c:790-794 | in the corrected build, a continuable response with more pages always has a token to send |
| Single.ExecuteRs | private.c:773-864 | more pages with no token is an assertion failure, and a failed transfer fails an assertion only then; undefined behaviour only as written; a transfer failure keeps the previous pages and the statistics; a command is counted only when a transfer took place |
| Single.Execute | private.c:681-761 | no response is ever returned; at most one command is counted and no retry; undefined behaviour only as written |
| Single.Verdict | private.c:739-760 | the single-call verdict never carries a response |
| Single.VerdictIsFirstPage | private.c:739-760 | the single call's verdict is the first-page verdict with the response dropped |
| Single.ExecuteIsFirstPage | private.c:681-864 | sdb_execute behaves like sdb_execute_rs on a first page, with the response dropped |
| Single.ParseResult | private.c:1005-1047 | the multi-call parse gives the same verdict as the single-call one, and only the size counters change |
| Single.ExecuteCounts | private.c:719-723 | every finished single call counts at most one command, no retry, and returns no response |
| Single.ExecuteRsCounts | private.c:821-825 | every finished paged call counts at most one command and no retry |
| Single.RetryLoopBudget | sdb.c:453-462 | the retry counter rises by at most the retry budget; ending on SERVICE_UNAVAILABLE means the budget was spent; any other first result is returned at once |
| Single.RetryLoop | sdb.c:453-462 | with no retries left the first answer is returned; with more attempts than the budget and transfers that never stall, the loop never stalls |
| Single.RunCommand | sdb.c:453-462 | a command run returns no response and counts at most the budget in retries; with enough attempts it always finishes |
| Single.RetryLoopNoResponse | sdb.c:453-462 | the retry loop never returns a response |
| Single.RunResultCommand | sdb.c:464-483 | success leaves no automatic page pending; retries stay within the budget; in the corrected build an unavailable result returns no response; as written the result set records no command or parameters, while corrected one with more pages records the command and its parameters |
| Single.RsLoop | sdb.c:464-483 | a successful paging loop always returns a result set, and never one with an automatic page still pending |
| Single.PageRun | private.c:773-864 | each page fetch never stalls, counts at most one command and no retry, and keeps the call recorded by the prior pages |
| Single.ExecuteRsKeepsCall | private.c:773-864 | a fetched page keeps the command and parameters the prior result set recorded, and records none for a first page |
| Single.RsLoopRecordsNoCall | sdb.c:464-483 | starting from no result set, the paging loop ends with a result that records no call |
| Single.RsLoopContract | sdb.c:464-483 | the paging loop keeps the retry budget and, on success, ends with no automatic page pending |
| Single.Next | sdb.c:499-572 | no more pages is OK at once; a missing command is undefined behaviour (replace) or an assertion failure (append); otherwise the paging-loop properties hold |
| Single.NextContinues | sdb.c:499-572 | with more pages and a saved command, NEXT issues the saved command again with the continuation token |
| Single.SingleCallNextFails | sdb.c:499-572 | as written, sdb_next on a single-call result set with more pages fails the assertion (append) or is undefined (replace) |
| Single.SingleCallNextContinues | sdb.c:499-572 | corrected, sdb_next on such a result set reissues the command with the continuation token |
| Single.ParseUnavailable | response.c:338-424 | a ServiceUnavailable document sets the error to 35 and counts one error |
| Single.InterpretUnavailable | private.c:1005-1047 | a ServiceUnavailable reply is kept as an extra page with code SERVICE_UNAVAILABLE |
| Single.UnavailableAppendLosesToken | private.c:790-794 | as written, after an unavailable page is appended the head has no token, so the retry fails the assertion although an older page has one |
| Single.FirstPageUnavailable | sdb.c:464-483 | as written, an unavailable first page ends the loop at once; corrected, it is retried |
| Single.FirstAttemptUnavailable | private.c:773-864 | a first attempt answered with ServiceUnavailable returns that code and the unavailable page, with no retry counted |
| Single.RsLoopStopsAfterFirstPage | sdb.c:464-483 | the as-written loop's condition stops after the first page whatever the result |
| Single.ExportFailureUndefined | private.c:699-700 | under signature version 0, an HMAC whose base64 text is empty makes export fail; as written this leads to strlen(NULL), corrected OPEN_SSL_FAILED is returned and nothing is counted |
| Pool.Empty | sdb.c:126-192 | a new pool is valid, with an empty chain and free list |
| Pool.Alloc | private.c:126-168 | a handle is reused from the free-list head, or else a fresh one is made; it is clean, not already in the chain, pushed onto the chain, and the pool stays valid |
| Pool.Cleaned | private.c:177-214 | a cleaned slot keeps its handle and buffer capacity and holds nothing else |
| Pool.FreeOne | private.c:177-214 | the chain is untouched; with 256 handles already free the slot is dropped; otherwise it is cleaned and pushed onto the free list |
| Pool.FreeOneValid | private.c:177-214 | freeing a handle keeps the pool valid |
| Pool.Released | private.c:223-231 | releasing the chain empties it and keeps the handle counter |
| Pool.FreeChain | private.c:223-231 | the loop computes the release of the whole chain and leaves the pool valid |
| Pool.ReleasedFreeSize | private.c:177-231 | after release the free list holds min(free + chain, 256) handles |
| Pool.ReleasedKeepsFreeList | private.c:177-231 | the old free list stays at the tail of the new one |
| Pool.ReleasedValid | private.c:223-231 | releasing keeps the pool valid |
| Pool.Fill | private.c:911-920 | filling the newest slot keeps the pool valid and its set of handles |
| Pool.Find | private.c:267-276 | the first slot with the handle, and none exactly when no slot has it |
| Pool.FindInValidChain | private.c:267-276 | in a valid pool, every slot is found at its own position |
| Pool.AbandonAsWritten | private.c:934-936 | as written, the chain becomes the free list, and none of the handles chained before remains in it |
| Pool.AbandonAsWrittenBreaksPool | private.c:934-936 | as written, freeing the refused slot while it is still chained makes the chain alias the free list: the pool is invalid and earlier commands are lost |
| Pool.Abandon | private.c:934-936 | corrected, the refused slot is unlinked first: the pool stays valid and the chain is unchanged |
| Multi.Truncate | private.c:914-915 | the stored command is the first 31 characters of the name |
| Multi.CopyOf | private.c:916 | the deep copy of a slot's parameters is NULL exactly for NULL, and otherwise a new set with the same entries |
| Multi.Park | private.c:910-920 | a parked command adds one slot holding the truncated command, copied parameters, the post body and the result target |
| Multi.ExecuteMulti | private.c:878-947 | a command is deferred exactly when it has a body and curl accepts it; a refusal leaves the statistics; corrected it keeps the chain, as written it breaks the pool |
| Multi.RegisterCommand | sdb.c:1300-1609 | a deferred command holds its own fields and no result target, and counts one command |
| Multi.SaveParams | sdb.c:1075-1090 | a page kept for manual NEXT gets the slot's parameters; otherwise the response is unchanged; the corrected build never fails |
| Multi.Handle | sdb.c:1005-1116 | handling one message keeps the result array's length and fills the slot the message belongs to |
| Multi.Destination | sdb.c:1204-1219 | first-round messages go to their own index; retry messages go to the slot they were reissued for |
| Multi.Step | sdb.c:1005-1116 | one message step keeps the run's invariant |
| Multi.Messages | sdb.c:1005-1116 | a round keeps the result array's length; it fails only with INTERNAL_ERROR; the first round does not count retries when the retry count is 0 |
| Multi.MessagesKeep | sdb.c:1005-1116 | any property one step keeps holds over the whole message loop |
| Multi.TearDown | sdb.c:1121-1122 | teardown empties the chain, keeps the statistics and keeps the pool valid |
| Multi.Reissue | sdb.c:1140-1151 | a reissued command is parked aimed at its original slot; a refusal leaves the statistics |
| Multi.Rebuild | sdb.c:1140-1151 | reissuing every retry adds one slot per retry, each aimed at its origin; a refusal gives RETRY_FAILED without counting |
| Multi.Reregister | sdb.c:1140-1151 | re-registration is the rebuild with sdb_execute_multi as the issuing step |
| Multi.PlayRetry | sdb.c:1131-1275 | one retry round keeps the retry invariant |
| Multi.Carried | sdb.c:1273 | a round adds its retries only if another round will follow |
| Multi.Retry | sdb.c:1131-1290 | the retry loop ends with an empty chain and a result array of the original length; retries never decrease; corrected, the pool stays valid (a round that leaves a page pending does not advance the loop index; Multi.Spent counts the rounds that do) |
| Multi.Run | sdb.c:980-1290 | an empty chain is OK with no result; a failed first drain tears down and returns its code; one result per first-round message; the chain ends empty; the corrected pool stays valid |
| Multi.AfterFirst | sdb.c:1005-1290 | a failed first round returns its code with the partial results and tears down |
| Multi.FirstProgress | sdb.c:998-1028 | the first round starts with one empty slot per message and nothing pending |
| Multi.RunFills | sdb.c:980-1290 | every slot of the result is filled unless the run ends with INTERNAL_ERROR |
| Multi.RunBudget | sdb.c:1131-1135 | without automatic paging, only the first retry-count rounds can affect the outcome |
| Multi.RetryBudget | sdb.c:1131-1135 | without automatic paging, the retry loop from iteration ri reads at most retry_count - ri rounds |
| Multi.AfterFirstBudget | sdb.c:1131-1135 | without automatic paging, what follows the first round reads at most retry_count rounds |
| Multi.Spent | sdb.c:1131-1135 | the rounds that use up a retry number at most the rounds given, and none when the loop's condition is already false |
| Multi.SpentWithinBudget | sdb.c:1131-1135 | with or without automatic paging, the rounds that use up a retry are at most retry_count - ri, or retry_count - ri - 1 plus one last page when a page is pending |
| Multi.SpentAfterFirst | sdb.c:1131-1135 | the retries used up after the first round are at most the rounds given |
| Multi.AfterFirstSpent | sdb.c:1131-1135 | after the first round at most retry_count rounds use up a retry, or max(retry_count, 1) when the first round left a page pending under automatic paging |
| Multi.RunWithoutRetries | sdb.c:1131-1135 | with a zero retry count and nothing pending, the run is decided by the first round |
| Multi.FailedSlots | sdb.c:321-339 | the failed-slot count is at most the number of slots; zero exactly when none failed; all exactly when all failed |
| Multi.FailedSlotsAppend | sdb.c:321-339 | counting failures distributes over concatenation |
| Multi.CountErrors | sdb.c:321-339 | the loop returns the number of failed slots, 0 for no result set |
| Multi.SaveParamsAfterAppend | sdb.c:1230-1244 | as written, a retried page whose head lost its parameters cannot be continued by hand; corrected, the slot's parameters are saved |

## Left out

- I/O is not modelled: the errout messages, `usleep` and the system clock. The Timestamp is an input of each attempt.
- curl, OpenSSL and libxml are parameters. A transfer is an `Attempt` (curl code, body, parsed document). The HMAC and base64 are functions of a `Crypto` value. The XML document is a `Node` tree.
- `sdb_multi_run_and_wait` is a drain status plus the messages curl delivers. The result array is sized by the number of messages, not by the chain length.
- Parser.ParseMetadata: the check that BoxUsage parses as a floating-point number is not modelled, so every BoxUsage text is accepted. Floating point is outside the model.
- Box-usage accumulation is left out for the same reason.
- Parser.Parse uses the corrected error parser. The undefined read at response.c:412 is shown on `ParseErrors` alone and is not carried into the execute paths.
- `sdb_url`, the print functions, global init and cleanup, the statistics getters and clear, and `set_error_file` are not modelled. They are I/O or trivial accessors.
- The memory release of `sdb_destroy` and `sdb_multi_free` is not modelled, apart from the handle pool.
- The `Stalled` and script-exhaustion outcomes come from modelling transfers as a finite script. They have no counterpart in the source.
- Numbers.Digits requires base ≥ 2 or num < base. For a smaller base the C loop divides by zero or never ends.
- KeyOrder.SortByKey: qsort's algorithm is not modelled. Instead, KeyOrder.SortedUnique shows that any sorted permutation equals it when the folded keys are distinct.
- The version-1 signing buffer is allocated one byte short of its NUL. The string model has no terminator, so this overrun is not represented.
- The batch puts have no multi-call form in the source, so Multi.RegisterCommand excludes them.
- Stats: the counters are C long long; the model uses unbounded integers.
- main.c, the example program, is not part of this model.
- Responses.Init: the model gives the intended fresh internal block. As written, sdb_response_internal_allocate (response.c:72-83) has no `return` statement, and struct sdb_response_internal (response.h:51-76) lacks the params, command and to_free fields that the code uses. That undefined behaviour is not represented.
- Signer.SignParams: version 1 uses the corrected key sort (KeyOrder.SortByKey), not the pointer comparison of private.c:421-424. Version 1 cannot be reached anyway: sdb_signature_ver is only ever set to 0 (sdb.c:175).
- Commands.SetRetry: for delays above 2147483 ms the model takes the two's-complement wrap of the `int` product `delay * 1000`, which C leaves undefined.
- Single.Interpret: the `<html` test looks at the new body only. C's 5-byte strncmp (private.c:729, 831, 1014) reads stale buffer bytes when the reply is shorter than 5 bytes.
- Parser.ParseDomainMetadata: a field no element names is absent from the map. In C that field of the malloc'd structure (response.c:615) is left uninitialised. A field GET_LONG refuses is set to 0 before the error return (response.c:591); the model reports only the failure.
- Multi.RunBudget: stated without automatic paging only. With it, a round that leaves a page pending does not advance the loop index (sdb.c:1133), so the rounds read are not bounded; Multi.AfterFirstSpent bounds the rounds that use up a retry instead.

## Findings

| source | as written | input that shows it | evidently intended | confidence | as-written member | corrected member |
|---|---|---|---|---|---|---|
| private.c:51-91 | the error-name table has 41 names but SDB_AWS_NUM_ERRORS is 42 | looking up any error code scans index 41, past the end of the table; naming DUPLICATE_ITEM_NAME reads past it too | a 42nd entry "DuplicateItemName" | not executed | Errors.AwsErrorNameAsWritten, Parser.CodeIndexAsWrittenUndefined | Errors.AwsErrorName, Parser.CodeIndexCorrected |
| private.c:421-424 | the qsort comparator passes the array elements (pointers) to strcasecmp; only signature version 1 sorts, and sdb.c:175 never selects it | key "Alpha" stored at address 2 and "Zeta" at address 1 sort as Zeta, Alpha | compare the keys the pointers point to | not executed | KeyOrder.SortAsWrittenMisorders | KeyOrder.SortByKey |
| private.c:790-794 | the continuation token is read from the head page only | a ServiceUnavailable page appended after a page with a token leaves the head without a token, so the retry fails the assertion | continue from the most recent page that recorded a token | not executed | Single.UnavailableAppendLosesToken | Single.ContinueToken, Responses.PrepareAppendKeepsToken |
| sdb.c:464-483 | the paged retry loop's condition stops after the first page when that page is unavailable | a first page answered with ServiceUnavailable is returned without any retry | retry the first page like any other | not executed | Single.FirstPageUnavailable | Single.RsLoopContract, Single.RunResultCommand |
| response.c:412 | the top-level check tests the inner cursor `cur` instead of `topcur` | an Errors element whose first child is BoxUsage reads an uninitialised pointer | skip a top-level BoxUsage | not executed | Parser.ErrorsAsWrittenUndefined | Parser.ParseErrors |
| private.c:699-700 | the export result is ignored, so strlen is called on a NULL body | under signature version 0, an HMAC whose base64 text is empty makes signing fail with OPEN_SSL_FAILED and leaves the body NULL | return the export error | not executed | Single.ExportFailureUndefined | Single.Execute, Single.Request |
| private.c:934-936 | a refused handle is freed while it is still at the head of the chain | curl_multi_add_handle failing on a pool with earlier commands makes the chain alias the free list | unlink the handle before freeing it | not executed | Pool.AbandonAsWrittenBreaksPool | Pool.Abandon |
| sdb.c:1230-1244 | a retried page takes params from a block that prepare_append has already cleared | a retry appended to a page with more results and manual NEXT trips the assertion | take the params from the block that still holds them | not executed | Multi.SaveParamsAfterAppend | Multi.SaveParams |
| sdb.c:499-572 | the result set of SDB_COMMAND_EXECUTE_RS (sdb.c:464-483) never records the command or its parameters, so sdb_next finds no call to repeat | any paged result with automatic NEXT off, then sdb_next: append fails `assert(params)` (sdb.c:554), replace calls strlen(NULL) (sdb.c:525) | record the command and parameters, as the multi-call path does | not executed | Single.SingleCallNextFails | Single.RunResultCommand, Single.SingleCallNextContinues |
