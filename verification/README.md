# modbusd: verified model of the connection table, the JSON library and the connection cache

modbusd answers Modbus TCP commands that arrive as JSON. This project models the
four parts of it that carry state or structure, and proves what they are for:

- `uthash.h`, the hash table that indexes the TCP connections: elements linked
  into an application-order list and into bucket chains, bucket expansion,
  deletion, and the in-place merge sort (`HashStructure`, `HashBuckets`,
  `HashExpand`, `HashSort`, `SortSpec`, `HashCheck`, `UtHash`, `HashRuns`, `Bits`,
  `Lists`);
- `json/cJSON.c`: parser, the allocating and the buffered printer, string
  escapes and UTF-16 to UTF-8 transcoding, the minifier, and the editing of
  child lists (`CText`, `Numbers`, `Numerals`, `Utf8`, `Strings`, `Quoting`,
  `Json`, `Printer`, `Rounding`, `PrintBuffer`, `Layout`, `Parser`, `Grammar`,
  `Prefixes`, `Errors`, `RoundTrip`, `Reparse`, `Minify`, `MinifyLaws`,
  `ChildList`);
- `json/cJSON_Utils.c`: JSON Pointer, JSON Patch, JSON Merge Patch, comparison
  and the sorting of members (`CaseOrder`, `CaseSort`, `SortNodes`, `Pointers`,
  `Tokens`, `Canon`, `Edits`, `Resolution`, `Comparison`, `Patch`, `PatchLaws`,
  `PatchOps`, `MemberOrder`, `MergePatches`, `MergeLaws`, `MergeInverse`,
  `MergeAgreeing`, `LowerCase`);
- `modbusd.c`: find or create a handle, connect it when needed, run a function
  code, and forget the connection when the peer resets it (`Modbusd`).

## How the model is built

- A C string is a Dafny `string` without its terminator; a cursor is a position,
  and reading at the end yields `'\0'`. Characters are bytes 1 to 255
  (`CString`). Where C would read past the terminator or dereference a null
  pointer, the model has an outcome of its own (`Overrun`, `Unterminated`,
  `Crash`, `NoChild`, `None`) instead of a precondition.
- Hash tables, child lists and print buffers are heap objects with the links and
  counters of the source. `Table.buckets` is an array of bucket records as in C.
  The hash function is an arbitrary function of the key; comparators of the
  sort are arbitrary functions of two elements.
- JSON trees are values. Node identity, which pointers and patches need, is the
  address of a node (the child indices on the way to it). `cJSON_Duplicate` is
  therefore the identity. The child lists themselves are modelled with their
  links in `ChildList` and `SortNodes`.
- Numbers carry `valueint` and `valuedouble`; doubles are exact reals. Printing is
  modelled for doubles that hold a 32-bit integer, whatever `valueint` is, so
  the response arrays of `cJSON_CreateUInt8Array` and `cJSON_CreateUInt16Array`
  (which leave `valueint` at 0) are covered by the `%.0f` branch.
- "Equal up to member order and the case of names" is equality of canonical forms
  (`Canon.CanonOf`), which `Comparison.CanonMeansSame` spells out. For names without
  upper-case letters the results hold with the names as they are (`LowerCase`).
- Theorems on JSON Patch and Merge Patch assume trees whose sibling names are C
  strings that differ ignoring case (`Edits.Tidy`), unless they say otherwise.
- The loops that link, sort, parse, print, compare, minify and walk are loops here,
  each in a method that is proved against a function of its inputs; the properties
  are proved about these functions. The skipping of blanks, `cJSON_GetObjectItem`,
  `strrchr`, `atoi`, and `cJSONUtils_ApplyPatch` with its helpers are functions
  only; `cJSONUtils_ApplyPatches` is a method.
- A `hide` statement only keeps a definition out of a proof that does not need it.

## Where the code differs from what it is meant to do

- Array removals in a generated patch use increasing indices
  (json/cJSON_Utils.c:262), so only arrays that shrink by at most one item are
  reproduced. `PatchLaws.ApplyUndoesDiff` proves that this is the exact condition
  and `PatchLaws.ShrinkByTwoFails` gives an input.
- A patch that replaces the root has an empty path, and its application uses a
  null child pointer (json/cJSON_Utils.c:104-106, 184-186, 242-253). That happens
  unless both roots are objects, both are arrays, or they are equal scalars:
  `PatchLaws.CrashIffRootsDiffer`. `PatchLaws.NumbersCrash` gives an input.
- A generated merge patch may not lead to the wanted tree: null members are lost,
  and as the members are sorted ignoring case but walked with `strcmp`
  (json/cJSON_Utils.c:370-376), a name that both objects have may be added and then
  removed. `MergeInverse.MergeUndoesGenerate` has the exact condition for all trees,
  `MergeAgreeing.MergeUndoesGenerateAgreeing` the condition on nulls that remains
  where both orders agree on the names; `MergeInverse.NullMemberLost` and
  `MergeInverse.MixedCaseLost` are inputs.
- Merging a patch twice may differ from merging it once when an object has a name
  twice: `MergeLaws.DuplicatesMergeOn`. Otherwise it does not:
  `MergeLaws.MergeIsIdempotent`.
- `SortList` leaves the `prev` link of the new head as it was
  (json/cJSON_Utils.c:323-341). An object stays fit for editing exactly if its
  first name was below all others: `SortNodes.SortObject`. Otherwise detaching
  the first member leaves a ring behind: `SortNodes.DetachAfterSort`. The input is
  in `SortNodes.TwoMembers`.
- An unterminated string literal is accepted by `parse_string`
  (json/cJSON.c:199, 249-251). `Strings.ClosedIffQuoted` says which literals are
  closed, `Strings.UnclosedAccepted` gives an input.
- More is accepted than section 2 of RFC 8259 allows: numerals may lack digits or
  have a leading zero, literals may hold control characters and unknown escapes, and
  every character up to the space is a blank (json/cJSON.c:96-115, 199-252, 324).
  `Grammar.ValueIff` and `Numerals.NumeralReads` have the exact language.
- In `cJSON_Minify` the star that opens a block comment may also close it
  (json/cJSON.c:758). `Minify.OpenerCloses` has the exact condition,
  `Minify.SlashStarSlash` an input.

## Model

| member | source | states |
|---|---|---|
| Bits.AndMask | uthash.h:210-213 | masking with a power of two minus one is the remainder modulo that power, so a bucket index is in range |
| Bits.ModOfDoubled | uthash.h:683-721 | doubling the bucket count only splits a bucket in two |
| HashStructure.Table.constructor | uthash.h:153-170 | a new table has 32 empty buckets and all counters zero |
| HashStructure.ToBucket | uthash.h:210-213 | the bucket of a hash value is its remainder modulo the number of buckets |
| HashStructure.SpreadIsComplete | uthash.h:290-340 | when each chain holds distinct elements of its residue class and the counts add up to the number of items, every element is in the chain its hash value selects |
| HashBuckets.FindInBucket | uthash.h:614-625 | walking a chain finds an element with the key, or shows that there is none |
| HashBuckets.PushFront | uthash.h:628-634 | the element heads its chain, both link directions and the count stay right |
| HashBuckets.DeleteInBucket | uthash.h:642-652 | exactly the element leaves its chain, wherever it stood |
| HashExpand.IdealIsCeiling | uthash.h:683-696 | the shift-and-mask formula is the ceiling of items over new buckets, and at least 1 for a table with items |
| HashExpand.Expand | uthash.h:683-730 | the new chains are the reversed subsequences of the old chains by hash value modulo the doubled bucket count, with counts, multipliers and the nonideal count; the expansion is recorded as effective exactly if twice the items beyond the ideal length of the new chains are at most all items |
| HashExpand.RatedEffective | uthash.h:722-729 | the test on the counter says ineffective exactly if twice the sum over the new chains of what exceeds the ideal length is more than the number of items |
| HashExpand.ExpansionConserves | uthash.h:683-721 | an expansion loses and duplicates nothing: each new chain holds, once each, exactly the elements whose hash value selects it |
| UtHash.MultiplierBounds | uthash.h:705-709 | a chain within the ideal length has multiplier 0, otherwise the multiplier says between which multiples of the ideal its length lies |
| UtHash.RatedBounds | uthash.h:683-721 | every bucket of a table that has just expanded is within the ideal length with multiplier 0, or its multiplier says between which multiples of the ideal its length lies |
| UtHash.QuietIffIdealSmall | uthash.h:635-709 | the multiplier that an expansion gives keeps every chain length below the trigger exactly if the ideal length is at most 9 |
| UtHash.RatedSettled | uthash.h:635-721 | no bucket of a table that has just expanded is at its trigger if the ideal length is at most 9 |
| UtHash.NoExpandAfterTwo | uthash.h:722-729 | noexpand is set exactly after two ineffective expansions in a row |
| UtHash.AddToBucket | uthash.h:628-638 | a full bucket makes the table expand, with the redistributed chains, their ratings and whether that was effective, by the chains themselves; otherwise the element heads its chain and nothing else changes; no bucket is left overdue while the ideal length is at most 9 |
| UtHash.EnterBucket | uthash.h:210-213 | the element enters the bucket its hash value selects; the table grows by one doubling if that bucket is full and growth is not inhibited, and not at all otherwise |
| UtHash.AppendToList | uthash.h:196-202 | the element becomes the last of the application-order list, with tail and count |
| UtHash.Unlink | uthash.h:236-251 | the list without the element is linked both ways and the head is its first element |
| UtHash.Hash.Find | uthash.h:106-117 | finding returns an element of the table with the key, or null when no element has it |
| UtHash.Hash.Add | uthash.h:185-208 | the table stays intact and the element is appended in application order; the table grows by one doubling exactly if the bucket of the key is full and growth is not inhibited, and growth is inhibited from then on exactly if this expansion and the one before left more than half of the items beyond the ideal length |
| UtHash.Hash.Delete | uthash.h:227-262 | the table stays intact, exactly the element disappears from the application order, and nothing about growth changes; with the last element the table goes |
| UtHash.Hash.Sort | uthash.h:736-821 | the table stays intact; only the order changes, to that of the sort specification; chains and hash values are untouched |
| UtHash.Hash.Fsck | uthash.h:290-340 | every intact table passes the integrity checker |
| HashCheck.Fsck | uthash.h:290-340 | on elements linked in any way, rings included, the checker ends, and passes exactly the tables whose list and chains are linked both ways with the counts of the table |
| HashCheck.FsckChain | uthash.h:299-310 | the walk along a chain counts it, or stops at an element with a wrong back link |
| HashCheck.FsckBuckets | uthash.h:297-320 | the buckets pass exactly if each heads a chain that it counts, and the counts add up to the items |
| HashCheck.FsckList | uthash.h:321-338 | the list in application order passes exactly if it is linked both ways and has as many elements as the table |
| HashSort.MergeRuns | uthash.h:762-811 | relinking two runs in place gives their merge, with both link directions, a null end and the tail |
| HashSort.OnePass | uthash.h:752-815 | a pass over the list is the pass of the specification, and needs at most one merge exactly if it finishes the sort |
| HashSort.SortList | uthash.h:746-821 | for every list and comparator the loop ends with the sorted list, its head and its tail |
| SortSpec.StableSort | uthash.h:736-821 | for a total preorder the result is sorted, a permutation, and keeps equal elements in their order |
| SortSpec.PassSorts | uthash.h:752-815 | a pass turns sorted runs of a length into sorted runs of twice that length |
| HashRuns.Run | uthash.h:106-262 | after every legal sequence of additions, deletions and sorts, finding a key gives exactly the element added under it and not deleted since, and the elements stand in the order of the run |
| HashRuns.RunOn | uthash.h:106-262 | over every legal run from a table in use: entries and order are replayed, the table lasts if it is never emptied, and while it lasts expansions are only added, and none, with the bucket count frozen, once they are inhibited |
| CText.OccursConcat | json/cJSON.c:363-365 | comparing a text piece by piece is comparing the whole |
| Numbers.ScanDecimal | json/cJSON.c:96-176 | parse_number undoes the printing of every integer, when what follows does not continue the number |
| Numbers.ParseNumber | json/cJSON.c:96-115 | the loops compute sign, digits, fraction and exponent of the scanned text, and valueint is the truncated value |
| Numerals.ReadsNumeral | json/cJSON.c:96-115 | what the scan consumes is a numeral whose digits, point and exponent stand for the value by powers of ten on natural numbers |
| Numerals.NumeralReads | json/cJSON.c:96-115 | wherever a numeral for a value stands, with maximal digit runs, the scan returns that value and ends after it |
| Numerals.ScanScientific | json/cJSON.c:96-115 | a sign, a, a point, d digits of value b, and an exponent k scan to v with v * 10^d = (a * 10^d + b) * 10^k, or v * 10^(d+k) = a * 10^d + b when the exponent is negative |
| Numerals.HundredScans | json/cJSON.c:109 | 1e2 is 100 |
| Numerals.TruncateDropsFraction | json/cJSON.c:112 | valueint is the number without its fraction, for both signs |
| Utf8.TranscodeIsUtf8 | json/cJSON.c:236-243 | the bytes stored for a scalar value are its octets in section 3 of RFC 3629 |
| Utf8.CombineIsUtf16 | json/cJSON.c:226-234 | a surrogate pair stands for the code point of section 2.2 of RFC 2781 |
| Utf8.Continuation | json/cJSON.c:239-241 | the or-and-mask of a continuation byte keeps six bits under the continuation mark |
| Strings.ParseHex4 | json/cJSON.c:178-189 | four hexadecimal digits give their value, anything else 0 |
| Strings.StepStaysAligned | json/cJSON.c:199-248 | every decoding step ends where the sizing scan would be, and stores at most as many bytes as the scan counted |
| Strings.DecodeStaysAligned | json/cJSON.c:193-252 | decoding ends exactly at the closing quote and never exceeds the counted length |
| Strings.ClosedIffQuoted | json/cJSON.c:193-252 | an accepted literal ends just past its closing quote if there is one, and at the terminator otherwise |
| Strings.UnclosedAccepted | json/cJSON.c:199-251 | a literal without its closing quote is accepted |
| Strings.UnicodeIsUtf8 | json/cJSON.c:219-243 | an escape decodes to the UTF-8 octets of the scalar value it stands for, and is rejected exactly when it stands for none or for U+0000 (lone or reversed surrogates) |
| Strings.StoreUtf8 | json/cJSON.c:236-244 | the fall-through switch writes the transcoded bytes backwards into place |
| Strings.DecodeUtf16 | json/cJSON.c:219-244 | the case of the loop for an escape or a surrogate pair stores the transcoded bytes and moves past it, or reports it as invalid, as the decoding step does that `Strings.UnicodeIsUtf8` is about |
| Strings.ParseString | json/cJSON.c:193-252 | the sizing scan and the decoding loop, writing into a buffer of the counted size, compute the literal at the position, with every failure and overrun |
| Quoting.ParseQuoted | json/cJSON.c:193-310 | parse_string undoes print_string_ptr for every C string, and ends after the closing quote |
| Quoting.Measure | json/cJSON.c:266-279 | the counting loops compute the exact length of the escaped text |
| Quoting.WriteQuoted | json/cJSON.c:268-309 | the quoted text and its terminator are written at the position, and nothing before it changes |
| Quoting.PrintString | json/cJSON.c:255-311 | the allocated size equals the text and its terminator exactly |
| Quoting.QuotedIsClean | json/cJSON.c:282-305 | between the quotes of a printed string there is no control character, and no quote without a backslash before it |
| Printer.NumberForm | json/cJSON.c:147-176 | whichever branch is taken, the text is the decimal of the double and fits the size asked for |
| Printer.TextCString | json/cJSON.c:375-406 | no printed text contains a terminator, so strlen of it is its length |
| Printer.PrintValue | json/cJSON.c:375-406 | the allocating printer returns the text of the tree, terminated, within what it allocated |
| Printer.ItemsFit | json/cJSON.c:437-511 | the length that print_array sums up covers the entries with their separators |
| Printer.PrintArray | json/cJSON.c:437-511 | every write falls inside the computed length and the result is the text of the array |
| Printer.MembersFit | json/cJSON.c:553-658 | the length that print_object sums up covers the members with names, tabs and separators |
| Printer.PrintObject | json/cJSON.c:553-658 | every write falls inside the computed length and the result is the text of the object |
| Rounding.Pow2gtIsLeastPower | json/cJSON.c:117 | within the int range, smearing the bits gives the least power of two that is not below the argument |
| PrintBuffer.Buffer.Ensure | json/cJSON.c:121-136 | there is room for what was asked for, and every character written before is kept |
| PrintBuffer.Buffer.Update | json/cJSON.c:138-144 | the new offset is the end of the text that stands at the old one |
| PrintBuffer.PrintInto | json/cJSON.c:375-390 | the value's text is appended after what was committed, inside the granted capacity |
| PrintBuffer.PrintArrayInto | json/cJSON.c:437-471 | the buffered array printer appends the same text as the allocating one |
| PrintBuffer.PrintObjectInto | json/cJSON.c:553-610 | the buffered object printer appends the same text as the allocating one |
| PrintBuffer.PrintBuffered | json/cJSON.c:349-356 | for every tree, format and positive initial size the buffer holds exactly the text of the allocating printer |
| Layout.FormattedLaidOut | json/cJSON.c:437-658 | in formatted text each line outside literals starts with a tab for each open bracket or brace, one less before a closing brace; a space or a new line follows each comma, a tab each colon, a new line each opening brace |
| Parser.ParseValue | json/cJSON.c:360-372 | parse_value computes the parse of the text at the position, or the failure position, or the overrun |
| Parser.ParseItems | json/cJSON.c:419-434 | the loop over array items computes the parse of the rest of the array |
| Parser.ParseMembers | json/cJSON.c:525-549 | the loop over object members computes the parse of the rest of the object |
| Parser.ParseWithOpts | json/cJSON.c:327-341 | with and without the required terminator, the parse of the whole text |
| Grammar.StringIff | json/cJSON.c:193-252 | a literal is accepted exactly if it is a quote, characters and escapes by their code points in section 7 of RFC 8259, and a quote or the terminator, and its value is what these stand for |
| Grammar.LiteralEnds | json/cJSON.c:199 | the sizing scan stops at the first quote that an even number of backslashes precedes, else at the terminator, and runs over it exactly if an odd number of backslashes ends the text |
| Grammar.StringOverruns | json/cJSON.c:193-199 | exactly such a literal is read past the terminator |
| Grammar.ValueIff | json/cJSON.c:360-372 | a value is accepted with a tree and an end exactly if the grammar derives that tree up to that end |
| Grammar.ParsingIff | json/cJSON.c:327-341 | a text is accepted exactly if a value is derived after blanks; with the required terminator only blanks follow and the end is that of the text |
| Grammar.LetterRejected | json/cJSON.c:371 | the text x is rejected at its start |
| Prefixes.ValueKept | json/cJSON.c:360-372 | an accepted value stays accepted, with the same tree and end, in every text that agrees up to its end and does not continue it |
| Errors.ErrorPosition | json/cJSON.c:327-341 | the text before the reported error can be completed to an accepted text, and every text that agrees up to four characters behind it fails at the same place, unless a rejected literal starts there |
| Errors.ValueViable | json/cJSON.c:360-372 | whatever is open before a failure can be closed again: literal, member, items and members |
| Errors.ValueFailsAlike | json/cJSON.c:360-372 | a failure depends on nothing that comes later than the word that stands there |
| RoundTrip.ValueReads | json/cJSON.c:360-661 | at any place in a text, depth and format, a printed tree parses to the same tree and the parser stops right after it |
| RoundTrip.ItemsRead | json/cJSON.c:409-511 | printed array items parse back in order from any blank before them |
| RoundTrip.MembersRead | json/cJSON.c:517-658 | printed members parse back in order from any blank before them |
| RoundTrip.ParseUndoesPrint | json/cJSON.c:327-347 | parsing a printed tree gives the tree with all of the text consumed, whether or not a terminator is required |
| Reparse.StringSound | json/cJSON.c:193-252 | no decoded string holds a terminator |
| Reparse.ParsePrintParse | json/cJSON.c:327-347 | the tree of any accepted text can be printed as modelled exactly if its numbers are 32-bit integers, and then parsing what is printed gives this very tree |
| Minify.MinifyUnformats | json/cJSON.c:748-763 | minifying the formatted text of a tree gives its unformatted text |
| Minify.QuoteReduces | json/cJSON.c:760 | string literals are left as they are, whatever blanks, slashes and escapes they contain |
| Minify.OpenerCloses | json/cJSON.c:758 | the star that opens a block comment also closes it exactly if a slash follows, and the comment is then three characters long |
| Minify.SlashStarSlash | json/cJSON.c:758 | such a comment at an input |
| MinifyLaws.BlankDropped | json/cJSON.c:753-756 | a space, tab, new line or carriage return is dropped |
| MinifyLaws.LineDropped | json/cJSON.c:757 | a line comment is dropped up to the end of its line or of the text |
| MinifyLaws.BlockDropped | json/cJSON.c:758 | a block comment is dropped up to the first star with a slash behind it, the opening star included |
| MinifyLaws.BlockRunsOver | json/cJSON.c:758 | without its end a block comment makes minifying run over the terminator |
| MinifyLaws.MinifiedCompact | json/cJSON.c:748-763 | whatever the text, no blank is left outside literals |
| MinifyLaws.MinifyKeepsMeaning | json/cJSON.c:748-763 | for every accepted text, minifying stays within it exactly if the text is not a literal without its closing quote, and what is left parses to the same tree |
| Minify.CopyLiteral | json/cJSON.c:760 | the inner loop copies a literal as far as the parser's sizing scan sees it, or reports that it runs past the terminator |
| Minify.Minify | json/cJSON.c:748-763 | in place, with the writing cursor never ahead of the reading cursor, the array ends up holding the minified text |
| ChildList.AddItemToArray | json/cJSON.c:672 | appends, keeping both link directions |
| ChildList.InsertItemInArray | json/cJSON.c:686-687 | inserts at the index, or appends when the index is past the end |
| ChildList.DetachItemFromArray | json/cJSON.c:680-682 | removes the node at the index and unlinks it on both sides, past the end nothing changes; if prev of the head points into the list, detaching the head leaves a ring |
| ChildList.ReplaceItemInArray | json/cJSON.c:688-690 | exchanges the node at the index; past the end nothing changes |
| ChildList.DetachUndoesInsert | json/cJSON.c:680-687 | detaching at the position of an insertion gives back the list and the node |
| CaseOrder.CompareIgnoringCase | json/cJSON_Utils.c:7-12 | the loop computes the case-insensitive comparison |
| CaseOrder.FoldShifts | json/cJSON_Utils.c:10-11 | ignoring case adds 32 to the codes 65 to 90 and changes no other |
| CaseOrder.StrcmpLexicographic | json/cJSON_Utils.c:376 | strcmp compares by the first characters that differ |
| CaseOrder.CaseOrderTotal | json/cJSON_Utils.c:7-12 | the comparison is antisymmetric and ties exactly strings that are equal up to case |
| CaseOrder.CaseOrderTransitive | json/cJSON_Utils.c:7-12 | the comparison is transitive, strictly if either step is strict |
| CaseOrder.LowerCaseAgrees | json/cJSON_Utils.c:370-376 | on lower-case strings it agrees with strcmp |
| CaseSort.SortSorts | json/cJSON_Utils.c:306-341 | the sort gives a permutation in case-insensitive order |
| CaseSort.SortKeepsFirst | json/cJSON_Utils.c:306-341 | the first element stays first exactly if its name is below all others; among equal names a later one goes first |
| SortNodes.FindMiddle | json/cJSON_Utils.c:316 | the two pointers stop at the middle, so that both halves are shorter |
| SortNodes.MergeLists | json/cJSON_Utils.c:323-339 | relinking two sorted lists gives their merge; the prev link of the new head is as before |
| SortNodes.SortNodes | json/cJSON_Utils.c:306-341 | given next links and prev links on all nodes but the head, the nodes are relinked to the sorted list with the same links re-established; the prev link of the new head is as before |
| SortNodes.SortObject | json/cJSON_Utils.c:344 | a well-formed member list is relinked to the sorted list, and is well formed again exactly if the first name was below all others; otherwise prev of the new head points into the list |
| SortNodes.DetachAfterSort | json/cJSON_Utils.c:306-344 | detaching the first member of an object that has just been sorted leaves the rest as a list if the first name was below all others, and a ring otherwise |
| SortNodes.TwoMembers | json/cJSON_Utils.c:323-341 | the members b and a, once sorted, are no well-formed list |
| Pointers.DecodeEncode | json/cJSON_Utils.c:28-98 | decoding an encoded token gives it back |
| Pointers.EncodedLength | json/cJSON_Utils.c:26 | the computed length is the exact length of the encoding |
| Pointers.EncodedExamples | json/cJSON_Utils.c:28-37 | the encodings in section 5 of RFC 6901 |
| Pointers.EncodeInto | json/cJSON_Utils.c:28-37 | the encoding and its terminator fill exactly the room for them |
| Pointers.DecodeInPlace | json/cJSON_Utils.c:93-98 | the decoded token replaces the text in place; a dangling tilde is reported as running past the terminator |
| Pointers.ComparePointer | json/cJSON_Utils.c:15-24 | returns 0 exactly when the name matches the token |
| Pointers.MatchesEncoded | json/cJSON_Utils.c:15-24 | a name matches the encoding of another exactly if the two are equal up to case |
| Pointers.FindPointer | json/cJSON_Utils.c:39-70 | the depth-first search returns the pointer to the node if it is in the tree, and nothing otherwise |
| Pointers.GetPointer | json/cJSON_Utils.c:72-90 | the loop leads to the node that the tokens select, or to none |
| Pointers.EvaluatePointer | json/cJSON_Utils.c:39-90 | evaluating the pointer to a node gives that node exactly if no earlier sibling on the way has the same name up to case |
| Pointers.PointerLeadsBack | json/cJSON_Utils.c:39-90 | with sibling names that differ up to case, evaluation undoes construction for every node |
| Tokens.Evaluates | json/cJSON_Utils.c:72-90 | any pointer whose tokens select a node, by decimal index or by name, leads to a node with that form; it leads nowhere exactly if they select none, as in a scalar or past the end |
| Canon.CanonPermuted | json/cJSON_Utils.c:344 | sorting members does not change the canonical form |
| Canon.ApplyUnder | json/cJSON_Utils.c:255-281 | patches with a longer path act on the subtree at that path and on nothing else |
| Comparison.EqualIffSame | json/cJSON_Utils.c:115-140 | the comparison returns 0 exactly for trees with the same canonical form |
| Comparison.ScalarCodes | json/cJSON_Utils.c:115-121 | different kinds, numbers and strings give -1, -2 and -3 |
| Comparison.ArrayCode | json/cJSON_Utils.c:123 | arrays give the code of the first items that differ, or -4 for different lengths |
| Comparison.ObjectCode | json/cJSON_Utils.c:125-136 | objects, their members in order, give the code of the first values that differ, -6 for names that differ, or -5 for different lengths |
| Comparison.CanonMeansSame | json/cJSON_Utils.c:115-140 | canonical forms are equal exactly for trees equal up to member order and the case of names |
| Edits.RemovalsWork | json/cJSON_Utils.c:262 | removing at increasing indices leaves every second surplus item |
| Edits.MemberEditsWork | json/cJSON_Utils.c:267-291 | the edits of two sorted member lists turn the one object into the other, member by member |
| Edits.EditsWork | json/cJSON_Utils.c:240-296 | the edits between two trees apply, and give the patched tree |
| Edits.PatchedIsTarget | json/cJSON_Utils.c:240-296 | the patched tree is the target exactly if no compared array shrinks by more than one item |
| Edits.NoEditsIffEqual | json/cJSON_Utils.c:240-296 | no edits are generated exactly for trees that are equal up to member order and case |
| Resolution.Resolves | json/cJSON_Utils.c:72-90 | a path that the canonical form has leads to a node with that form, and exchanging the node exchanges it there |
| Patch.Document.ApplyPatches | json/cJSON_Utils.c:209-220 | patches are applied in order until one fails, with its code; the tree is what the applied patches left |
| Patch.CompareToPatch | json/cJSON_Utils.c:240-296 | the generated patches are the rendered edits, appended to the list |
| Patch.DiffItems | json/cJSON_Utils.c:255-266 | the three loops over array items append exactly the rendered item edits |
| Patch.DiffMembers | json/cJSON_Utils.c:267-291 | the walk over sorted members appends exactly the rendered member edits |
| Patch.GeneratePatches | json/cJSON_Utils.c:298-303 | the patch array renders the edits between the two trees |
| PatchLaws.DetachWorks | json/cJSON_Utils.c:100-113 | detaching at a generated path drops that child from the canonical form |
| PatchLaws.AddWorks | json/cJSON_Utils.c:181-205 | adding at a generated path changes only the parent at that path |
| PatchLaws.EditWorks | json/cJSON_Utils.c:142-206 | applying one generated patch returns 0 and does what its edit means |
| PatchLaws.ApplyUndoesDiff | json/cJSON_Utils.c:142-303 | for two objects or two arrays, applying the generated patches to any equal copy returns 0, and gives the target, up to member order and case, exactly if no compared array shrinks by more than one item |
| PatchLaws.ShrinkByTwoFails | json/cJSON_Utils.c:262 | an array that loses two items ends up with the wrong items |
| PatchLaws.RootReplacementCrashes | json/cJSON_Utils.c:184-242 | applying a patch that replaces the root is undefined |
| PatchLaws.CrashIffRootsDiffer | json/cJSON_Utils.c:142-303 | applying the generated patches is undefined exactly unless the roots are two objects, two arrays or equal scalars |
| PatchLaws.NumbersCrash | json/cJSON_Utils.c:246-248 | two different numbers give such a patch |
| PatchOps.AddOp | json/cJSON_Utils.c:174-206 | an add at any path puts the value there, or fails with 9 where there is no node to put it into; a scalar there is left as it is |
| PatchOps.RemoveOp | json/cJSON_Utils.c:158-162 | a remove takes the child out if it is there, and returns 0 |
| PatchOps.ReplaceOp | json/cJSON_Utils.c:158-206 | a replace takes the child out and puts the value in its place |
| PatchOps.MoveOp | json/cJSON_Utils.c:164-206 | a move takes the child out and puts it at the path in the tree that is left; without a child it fails with 5, without a new parent with 9 and the child is gone |
| PatchOps.CopyOp | json/cJSON_Utils.c:164-206 | a copy puts the form found at from at the path, into the tree as it is |
| PatchOps.TestOp | json/cJSON_Utils.c:155 | a test returns 0 exactly if the node at the path has the canonical form of the value, and leaves the tree alone; without a node it is undefined |
| PatchOps.MemberMoves | json/cJSON_Utils.c:164-206 | moving a member within its object returns 0; the new name has the form of the old one, which is gone |
| PatchOps.MoveExample | json/cJSON_Utils.c:164-206 | moving /a to /b in the object {"a":true} leaves {"b":true} |
| PatchOps.Refusals | json/cJSON_Utils.c:146-178 | what lacks op, path, from or value, or has an unknown op, is refused with its code |
| PatchOps.StopsAtFailure | json/cJSON_Utils.c:209-220 | a sequence of patches ends with the first that fails |
| PatchOps.NoPatches | json/cJSON_Utils.c:212 | what is no array is refused with 1 |
| PatchOps.NoPlace | json/cJSON_Utils.c:93-186 | taking out or adding at a path is undefined exactly if it has no slash, or an odd number of tildes at its end |
| PatchOps.DecodeFails | json/cJSON_Utils.c:93-98 | decoding reads over the terminator exactly if an odd number of tildes ends the token |
| MemberOrder.FirstGoes | json/cJSON_Utils.c:195-199 | in an object the first member with the name goes, the others keep their order, and what is added goes to the end under the name in the path |
| PatchOps.PositionReads | json/cJSON_Utils.c:109-193 | an array position is read as blanks, a sign and all digits that follow |
| MergePatches.MergePatch | json/cJSON_Utils.c:346-363 | the loop over the patch members computes the merge, with missing and non-object targets |
| MergePatches.GenerateMergePatch | json/cJSON_Utils.c:365-395 | the walk over both sorted objects computes the merge patch, or none |
| MergeLaws.MergeIsCMerge | json/cJSON_Utils.c:346-363 | merging does to the canonical form what section 2 of RFC 7396 says, also for a patch that has a name twice |
| MemberOrder.MergeKeepsOrder | json/cJSON_Utils.c:346-363 | the members that the patch does not name stay as they are, in their order; behind them stand those that it sets, with its names and in its order |
| MergeLaws.MergeIsIdempotent | json/cJSON_Utils.c:346-363 | for trees and patches whose sibling names differ ignoring case, merging the same patch again leaves the very same tree, member order and names included |
| MergeLaws.DuplicatesMergeOn | json/cJSON_Utils.c:346-363 | with two members of one name, merging again changes the tree |
| MergeInverse.NoPatchIffEqual | json/cJSON_Utils.c:365-395 | no patch is generated exactly for two objects that are equal up to member order and whose own names are the same to the letter |
| MergeInverse.WalkFate | json/cJSON_Utils.c:365-395 | what the generated entries for a name do, by whether the walk finds the name in both objects together, removes it first, or adds it first |
| MergeAgreeing.GeneratedTidy | json/cJSON_Utils.c:365-395 | on names that both orders agree on, a generated patch has distinct member names throughout |
| MergeInverse.MergeUndoesGenerate | json/cJSON_Utils.c:346-395 | for all trees with tidy names, merging the generated patch into an equal copy gives the target, up to member order and case, exactly if the walk of the generator reaches it |
| MergeInverse.MixedCaseLost | json/cJSON_Utils.c:370-376 | a name that is found missing, added, and then removed |
| MergeAgreeing.LowerAgrees | json/cJSON_Utils.c:370-376 | both orders agree on lower-case names |
| MergeAgreeing.MergeUndoesGenerateAgreeing | json/cJSON_Utils.c:346-395 | on names that both orders agree on, no patch is generated exactly for equal objects, and merging it gives the target exactly if its null members stand where the trees agree; always so without null members |
| MergeInverse.NullMemberLost | json/cJSON_Utils.c:346-395 | a null member that is lost |
| LowerCase.SameIsEqual | json/cJSON_Utils.c:115-140 | for lower-case names, equality up to case is equality with the names as they are |
| LowerCase.ApplyLower | json/cJSON_Utils.c:142-207 | whatever its operation, a patch without upper-case letters brings none into a tree |
| LowerCase.EditsLower | json/cJSON_Utils.c:240-296 | the edits between lower-case trees name nothing with an upper-case letter |
| LowerCase.ApplyUndoesDiffExactly | json/cJSON_Utils.c:142-303 | for lower-case names, applying the generated patches to an equal copy returns 0, and gives the target up to member order, names as they are, exactly if no compared array shrinks by more than one item |
| LowerCase.MergeLower | json/cJSON_Utils.c:346-363 | merging brings no upper-case letters into a tree |
| LowerCase.GenerateLower | json/cJSON_Utils.c:365-395 | a merge patch between lower-case trees is lower-case |
| LowerCase.MergeUndoesGenerateExactly | json/cJSON_Utils.c:346-395 | for lower-case names, no patch is generated exactly for equal objects; otherwise merging it gives the target up to member order, names as they are, exactly if its null members stand where the trees agree |
| Modbusd.KeyInjective | modbusd.c:457-487 | zero-padded keys of different addresses are different |
| Modbusd.Daemon.GetHandle | modbusd.c:480-503 | returns the handle of the address, or null when there is none |
| Modbusd.Daemon.InitHandle | modbusd.c:441-478 | without a context nothing happens; otherwise one handle is added and its flag is the answer of the connect |
| Modbusd.Daemon.DoConnect | modbusd.c:405-428 | the flag is set on success and otherwise left alone |
| Modbusd.Daemon.LazyInit | modbusd.c:29-53 | a handle is created only when the address has none |
| Modbusd.Daemon.LazyConnect | modbusd.c:63-84 | reports connected exactly when the handle is connected afterwards, and connects only when needed |
| Modbusd.Daemon.CallHandler | modbusd.c:94-107 | errno 104 clears the flag, nothing else does |
| Modbusd.Daemon.CommandOn | modbusd.c:513-525 | with a handle, the command connects it if needed, and answers what the handler comes to, or the failed connect |
| Modbusd.Daemon.Command | modbusd.c:505-531 | the response and the events are those of the command, and the response tells what happened: the handler's answer exactly if a handler ran, a reset exactly if that answer is errno 104, a failed connect exactly if that came last, and a failed init exactly if there is still no handle |
| Modbusd.ResponseTells | modbusd.c:505-531 | response and events agree in this way for every answer of libmodbus |
| Modbusd.Serve | modbusd.c:29-531 | over every run each response tells what its command did, there is one handle for each address a context could be made for, each flag says whether the last successful connect or reset was a connect, and no handler ran on an unconnected handle |

## Left out

- Allocation failure, `cJSON_InitHooks`, `cJSON_Delete`, reference and const-string flags: memory is taken to be available and collected.
- Identity of JSON nodes across operations: trees are values, so sharing of a subtree between two parents is not modelled.
- Numbers with a fraction or beyond 32 bits in the printers (`%e`, `%f`, NaN, infinity), and rounding of doubles in `parse_number`.
- Overflow of C integers: `which` in `cJSONUtils_GetPointer`, `atoi`, and the sizes of texts beyond 2^30 characters.
- Patch.Document.ApplyPatches: a `test` operation also sorts the members it compares (json/cJSON_Utils.c:125-126); the model leaves their order alone.
- MergePatches.GenerateMergePatch: comparing two arrays also sorts the members of the objects in them (json/cJSON_Utils.c:123-126), so that the patch holds these sorted; the model leaves their order alone.
- ChildList.ReplaceItemInArray: the replaced node is unlinked but not freed.
- Names that stay behind on nodes moved into arrays: array items have no names in the model.
- Modbusd.Daemon.CallHandler: the request bodies of the function codes are reduced to whether libmodbus is called and what it returns.
- `HASH_SELECT`, which does not keep the `tail` of its destination (uthash.h:847-860), `HASH_REPLACE` and `HASH_CLEAR`.
- The hash functions and the Bloom filter of `uthash.h`: only determinism matters.
- `main.c`, `json.c`, `log.h`: sockets, configuration and logging around the modelled functions.
- libmodbus: its answers are parameters.
