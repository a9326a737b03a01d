# fancyindex query arguments in Dafny

This project models the query-argument layer of the nginx fancyindex module
(`ngx_http_fancyindex_utils.c`, with the types of `ngx_http_fancyindex_module.h` and
`ngx_http_fancyindex_utils.h`). The layer reads sort and filter directives out of a
request's raw query string. That string is not NUL-terminated. The layer then writes
the resulting state back as an href fragment for the listing's links.

The modules:

- `FancyIndexTypes` (types.dfy) holds the error codes, the six sort criteria, the
  filter record and its "unset" sentinel `-1`.
- `CStrings` (cstrings.dfy) models `snprintf(out, size, "%s", s)` and `strlen`. `%s` reads
  its argument only up to a NUL it may hold. The module also covers a C string written over
  a buffer.
- `ArgScanner` (scanner.dfy) models `getarg_str`. Positions are indices into the
  argument sequence. `Lookup` is the specification: a field ends at `&`, and a next
  field may start after `&` or after `&amp;`. `GetArgStr` and its helper methods
  follow the C loops and are proved against `Lookup`.
- `ScannerProperties` (scanner_props.dfy) holds what `Lookup` means:
  - a result is found only at a field start;
  - a query joined from fields gives the first field whose key matches;
  - a lookup does not depend on any prefix before the position it starts from.
- `DecimalText` (decimal.dfy) models `%ld` (`DecText`), `atol` on text that passed
  getarg_num's check (`ParseDecimal`), and their round trip.
- `Criteria` (criteria.dfy) models `getarg_num`, `get_sort_criteria` and
  `get_filter_criteria`. Each is a method proved equal to a function.
- `Href` (href.dfy) models `get_url_args`. The fragment is built in stages:
  - `SortArgs` writes the sort literal;
  - `AddBound` adds one bound at a time;
  - `UrlArgs` is the whole fragment.
  `GetUrlArgs` writes it with one bounded `snprintf` per piece.
- `Pool` (pool.dfy) models the static pool of sixteen 128-byte scratch strings as a
  class. `FormatString` is `format_string(NULL)` and `GetHref` is `get_href`.
- `RoundTrip` (roundtrip.dfy) proves that reading the fragment back (the part after
  its `?`) gives the same sort and bounds. It also proves that resolving, writing and
  resolving again is stable.
- `Examples` (examples.dfy) covers particular queries. They show the edge cases the
  code has, for example:
  - an empty value reads as `0`;
  - only the first 15 characters of a number are looked at (`LongNumberCut`);
  - an explicit `-1` reads as unset, in every query.

The extractor is sometimes described as answering a NULL destination with an
"invalid argument" error. The code (`ngx_http_fancyindex_utils.c:209-265`) has no
such check: it passes the pointer straight to `snprintf`. The model follows the code.
Its `GetArgStr` takes a non-null array and returns only `Ok` or `NoEnt`.
`get_url_args` does check for a NULL `out`, and its model does the same
(`Inval`).

## Model

| member | source | states |
|---|---|---|
| CStrings.PutCStr | ngx_http_fancyindex_utils.c:241 | `snprintf(out+at, size, "%s", s)` changes no byte outside `[at, at+size)` and keeps the buffer's length; inside, it writes `Fitted(s, size)` and a NUL |
| CStrings.CText | ngx_http_fancyindex_utils.c:241 | what `%s` reads of `s`: a prefix of `s` with no NUL, stopping exactly at the first NUL when there is one |
| CStrings.Fitted | ngx_http_fancyindex_utils.c:241 | what a bounded `%s` leaves before its NUL: a NUL-free prefix of `s` shorter than the size, all of `s` when `s` is NUL-free and fits |
| CStrings.CTextAppend | ngx_http_fancyindex_utils.c:241 | the C string of `a + b` is that of `a` when `a` holds a NUL, and starts with all of `a` otherwise |
| CStrings.PutCStrAtStart | ngx_http_fancyindex_utils.c:269-277 | a write at the start of a buffer leaves the C string `Fitted(s, size)` there, and `strlen` measures it |
| CStrings.StrLen | ngx_http_fancyindex_utils.c:277 | `strlen`: the index of the first NUL, every byte before it is not NUL |
| CStrings.PutCStrFits | ngx_http_fancyindex_utils.c:272-277 | a string without NUL shorter than the size is written whole and terminated, and `strlen` of the result is its length |
| CStrings.StrLenTerminated | ngx_http_fancyindex_utils.c:277 | `strlen` of a buffer holding a NUL-free C string at its start is that string's length |
| CStrings.PutCStrWhole | ngx_http_fancyindex_utils.c:241 | a NUL-free string shorter than the size lands whole at the position, followed by a NUL, the rest of the buffer unchanged |
| CStrings.TerminatedAppend | ngx_http_fancyindex_utils.c:170-172 | printing a NUL-free string that fits at the terminator of a written C string gives the C string of the concatenation |
| CStrings.TerminatedParts | ngx_http_fancyindex_utils.c:170-172 | a written C string keeps its text at the start and the old bytes past its terminator and padding |
| CStrings.SnPrintf | ngx_http_fancyindex_utils.c:241 | returns `strlen(s)`, whatever was truncated, which is the length of `s` exactly when `s` holds no NUL, and leaves the buffer as `PutCStr` says |
| ArgScanner.AmpersandFrom | ngx_http_fancyindex_utils.c:237-239 | the first `&` at or after a position, or the end: no `&` before it |
| ArgScanner.NextFieldFrom | ngx_http_fancyindex_utils.c:250-256 | the scan past a field and its separator always advances and stays within the buffer |
| ArgScanner.KeyAt | ngx_http_fancyindex_utils.c:225-231 | the key test: `name` at the position, then `=`, all within the buffer |
| ArgScanner.LookupFrom | ngx_http_fancyindex_utils.c:225-257 | the scan from a position: the value of the first field from there on that is `name=…`, up to the next `&`; nothing once no more characters remain than the name has |
| ArgScanner.Lookup | ngx_http_fancyindex_utils.c:217-264 | the scan from the start; nothing when the arguments are no longer than the name |
| ArgScanner.GetArgStr | ngx_http_fancyindex_utils.c:209-265 | for any arguments, NULs included: `Ok` exactly when the key is found at a field start, and then `out` holds its value as `%s` copies it, truncated; `NoEnt` leaves `out` unchanged |
| ArgScanner.CopyValue | ngx_http_fancyindex_utils.c:233-241 | on a match, `out` holds the value up to the next `&` as `snprintf(out, min(len + 1, maxSize), "%s", vpos)` leaves it, stopping at a NUL in the value |
| ArgScanner.ValueCopy | ngx_http_fancyindex_utils.c:234-241 | with `k` the distance from the value start to the field end, the `%s` copy bounded by `min(k + 1, maxSize)` over the rest of the arguments leaves what the copy of the value alone, bounded by `maxSize`, leaves |
| ArgScanner.ValueSpan | ngx_http_fancyindex_utils.c:234-239 | proof step: the value found at a matching field is the text from just after `name=` up to the first `&` from the field start |
| ArgScanner.CopyPrefix | ngx_http_fancyindex_utils.c:241 | proof step: a `%s` copy bounded by `min(k + 1, size)` of text whose first `k` characters are the value equals the copy of the value bounded by `size` |
| ArgScanner.FieldEnd | ngx_http_fancyindex_utils.c:237-239 | the loop stops at the first `&` or the end |
| ArgScanner.NextField | ngx_http_fancyindex_utils.c:250-256 | the loop lands past the next `&` and past a following `amp;` when more than four bytes remain |
| ArgScanner.ValueEnd | ngx_http_fancyindex_utils.c:234-239 | scanning for the end from the field start or from the value start finds the same `&` (the key holds no `&`) |
| ArgScanner.TruncatedCopy | ngx_http_fancyindex_utils.c:241 | bounding the copy by value length + 1 writes the value's C string cut to the size, whatever follows the value (NULs included) |
| ScannerProperties.NextFieldIsFieldStart | ngx_http_fancyindex_utils.c:250-256 | the scan past a field lands at the end or right after `&` or `&amp;` |
| ScannerProperties.LookupFromFieldStart | ngx_http_fancyindex_utils.c:225-257 | a value found from a field start is `name=value` at a field start, ending at `&` or the end |
| ScannerProperties.LookupAtFieldStart | ngx_http_fancyindex_utils.c:225-257 | every value the extractor finds is a whole `name=value` field of the query |
| ScannerProperties.LookupValueHasNoNul | ngx_http_fancyindex_utils.c:241 | a value taken from a NUL-free query holds no NUL, so the `%s` copy stops only at the size bound |
| ScannerProperties.AmpersandIs | ngx_http_fancyindex_utils.c:237-239 | proof step: a position with no `&` between it and a later `&` or the end is where the end-of-field scan stops |
| ScannerProperties.AmpersandShift | ngx_http_fancyindex_utils.c:237-239 | the end-of-field scan does not depend on the text before its start |
| ScannerProperties.NextFieldShift | ngx_http_fancyindex_utils.c:250-256 | the next-field scan does not depend on the text before its start |
| ScannerProperties.LookupShift | ngx_http_fancyindex_utils.c:225-257 | the lookup from a position does not depend on the text before it |
| ScannerProperties.KeyAtShift | ngx_http_fancyindex_utils.c:231 | proof step of LookupShift: the key test at a position does not depend on the text before it |
| ScannerProperties.ValueShift | ngx_http_fancyindex_utils.c:234-241 | the value span at a position does not depend on the text before it |
| ScannerProperties.LookupJoined | ngx_http_fancyindex_utils.c:225-256 | for a name without NUL or `&`, and fields without `&` joined by `&amp;` (all fields nonempty) or by `&` (no field after the first starting `amp;`), a key's value is that of the first field `name=…` |
| ScannerProperties.LookupSingleField | ngx_http_fancyindex_utils.c:225-248 | a query of one field gives its value exactly when it is `name=…` |
| ScannerProperties.LookupNextField | ngx_http_fancyindex_utils.c:250-256 | a field that does not match passes the lookup on to the rest after its separator |
| ScannerProperties.LookupFirstField | ngx_http_fancyindex_utils.c:231-241 | the key test at the start is `name=` on the first field, and a match gives that field's value |
| ScannerProperties.SeparatorSkipped | ngx_http_fancyindex_utils.c:250-256 | in well-separated fields the scan past the first field lands on the second |
| ScannerProperties.SkipAmpersand | ngx_http_fancyindex_utils.c:251 | the scan past `f&rest` lands after the `&` when `rest` does not start with `amp;` |
| ScannerProperties.SkipEntity | ngx_http_fancyindex_utils.c:254-256 | the scan past `f&amp;rest` lands after the whole `&amp;` when `rest` is not empty |
| ScannerProperties.JoinNotAmpPrefixed | ngx_http_fancyindex_utils.c:254 | fields joined by `&` start with `amp;` only when the first field does |
| DecimalText.DigitValue | ngx_http_fancyindex_utils.c:281 | an ASCII digit's value is below 10 and is the inverse of `DigitChar` |
| DecimalText.NumberText | ngx_http_fancyindex_utils.c:279-286 | the check: every character a digit, except a `-` in first position |
| DecimalText.ParseDecimal | ngx_http_fancyindex_utils.c:288 | `atol` of checked text: negative only for text of a `-` and at least one digit, never negative without a leading `-` |
| DecimalText.DecText | ngx_http_fancyindex_utils.c:171 | `%ld` text is nonempty, passes getarg_num's check and holds no `&`, `=` or NUL |
| DecimalText.DigitsRoundTrip | ngx_http_fancyindex_utils.c:288 | the decimal digits of a natural number read back as that number |
| DecimalText.DecTextRoundTrip | ngx_http_fancyindex_utils.c:288 | `atol` of the `%ld` text of every integer gives it back |
| DecimalText.DigitsValueBound | ngx_http_fancyindex_utils.c:288 | `k` digits read as less than 10^k |
| DecimalText.DigitsLength | ngx_http_fancyindex_utils.c:171 | a number below 10^k prints in at most `k` digits |
| DecimalText.ParseBound | ngx_http_fancyindex_utils.c:269-288 | text of at most 15 characters that passes the check reads strictly between -10^14 and 10^15 |
| DecimalText.DecTextLength | ngx_http_fancyindex_utils.c:171 | `%ld` prints `v` in at most 15 characters exactly when -10^14 < v < 10^15 |
| Criteria.NumText | ngx_http_fancyindex_utils.c:269-272 | the C string the 16-byte buffer receives: a NUL-free prefix of the value of at most 15 characters, the whole value when it is NUL-free and fits |
| Criteria.ArgNum | ngx_http_fancyindex_utils.c:267-292 | an absent key gives the default; any other result is the default or lies strictly between -10^14 and 10^15 |
| Criteria.GetArgNum | ngx_http_fancyindex_utils.c:267-292 | the character loop over the 16-byte buffer returns exactly `ArgNum`: the default on a failed check, `atol` of the first 15 characters otherwise |
| Criteria.FirstChar | ngx_http_fancyindex_utils.c:77-83 | the first byte of a 2-byte buffer: NUL when the key is absent, otherwise a non-NUL byte only as the value's first character |
| Criteria.ResolveSort | ngx_http_fancyindex_utils.c:72-105 | a `C` starting with `M`, `S` or `N` selects that key, descending exactly when `O` starts with `D`; anything else keeps the default |
| Criteria.GetSortCriteria | ngx_http_fancyindex_utils.c:72-105 | reading `C` and `O` into 2-byte buffers and switching on them returns `ResolveSort` |
| Criteria.ResolveFilter | ngx_http_fancyindex_utils.c:107-124 | an absent key leaves its bound at -1, and the other four fields are 0 |
| Criteria.GetFilterCriteria | ngx_http_fancyindex_utils.c:107-124 | the zeroed record with the four bounds read by getarg_num with default -1 |
| Href.SortLiteral | ngx_http_fancyindex_utils.c:141-162 | each literal is 12 characters: `?C=`, the criterion's key letter, `&amp;O=`, its order letter |
| Href.Separator | ngx_http_fancyindex_utils.c:171 | `?` exactly when nothing has been written, a nonempty separator without NUL or `=` |
| Href.BoundPiece | ngx_http_fancyindex_utils.c:170-172 | separator, key, `=` and the `%ld` text in length, with no NUL when the key has none |
| Href.AddBound | ngx_http_fancyindex_utils.c:169-191 | adding a bound keeps what was written as a prefix and the fragment's first character |
| Href.SortArgs | ngx_http_fancyindex_utils.c:137-165 | the sort part is empty exactly when no sort is given, and at most 12 characters |
| Href.FilterArgs | ngx_http_fancyindex_utils.c:167-192 | the bounds extend what was written, and add nothing exactly when all four are unset |
| Href.UrlArgs | ngx_http_fancyindex_utils.c:126-195 | the fragment starts with `?` unless it is empty, and it is empty exactly when no sort is given and no bound is set |
| Href.UrlArgsHasNoNul | ngx_http_fancyindex_utils.c:137-191 | the fragment holds no NUL, so it reads back as one C string |
| Href.SortLiteralHasNoNul | ngx_http_fancyindex_utils.c:141-162 | none of the six sort literals holds a NUL |
| Href.FilterArgsHasNoNul | ngx_http_fancyindex_utils.c:167-192 | the bounds add no NUL |
| Href.AddBoundHasNoNul | ngx_http_fancyindex_utils.c:169-191 | one bound adds no NUL |
| Href.WriteStep | ngx_http_fancyindex_utils.c:170-172 | printing the next NUL-free piece at `npos` with `epos - npos` bytes extends the written C string by that piece |
| Href.GetUrlArgs | ngx_http_fancyindex_utils.c:126-195 | `Inval` for a NULL `out`; otherwise `Ok` and `out` holds the whole fragment as a C string over its old bytes |
| Href.PrintSort | ngx_http_fancyindex_utils.c:137-165 | writes the criterion's literal and advances `npos` by its length |
| Href.PrintFilter | ngx_http_fancyindex_utils.c:167-192 | writes each set bound in the order dirs, files, le, ge and advances `npos` to the end of the fragment |
| Href.PrintBound | ngx_http_fancyindex_utils.c:169-173 | writes `?` or `&amp;`, then the key, `=` and `%ld` of the bound, with `?` exactly when nothing was written before |
| Pool.Zeros | ngx_http_fancyindex_utils.c:66 | the zeroed scratch string has every byte 0 |
| Pool.Claim | ngx_http_fancyindex_utils.c:53 | the cursor after a claim is a valid slot index |
| Pool.ClaimsFromIs | ngx_http_fancyindex_utils.c:53 | after `k` claims the cursor is `(ix + k) mod 16` |
| Pool.ClaimsDoNotRepeat | ngx_http_fancyindex_utils.c:45-54 | a slot handed out is not handed out by the next 15 claims, and is by the 16th |
| Pool.AddBoundLength | ngx_http_fancyindex_utils.c:169-191 | a bound that prints in 15 characters adds at most separator, key, `=` and 15 characters |
| Pool.HrefFits | ngx_http_fancyindex_utils.c:197-204 | with fitting bounds the fragment is nonempty and at most 109 characters, so it fits the 128-byte slot |
| Pool.HrefText | ngx_http_fancyindex_utils.c:197-206 | what get_href's slot holds: 128 bytes, the fragment as a C string over zeros |
| Pool.HrefTextIsCString | ngx_http_fancyindex_utils.c:197-206 | the slot get_href returns is 128 bytes whose `strlen` is the fragment's length and whose text is the fragment |
| Pool.ScratchPool.constructor | ngx_http_fancyindex_utils.c:45-47 | the static pool starts with cursor 0 and sixteen distinct zeroed 128-byte strings |
| Pool.ScratchPool.FormatString | ngx_http_fancyindex_utils.c:49-70 | with a NULL format, advances the cursor mod 16 and returns that slot zeroed; no other slot changes |
| Pool.ScratchPool.GetHref | ngx_http_fancyindex_utils.c:197-207 | claims the next slot, which then holds the whole fragment as a C string; no other slot changes |
| RoundTrip.FieldsOf | ngx_http_fancyindex_utils.c:169-191 | one field per key/value pair |
| RoundTrip.MatchesKey | ngx_http_fancyindex_utils.c:231 | the key test `strncmp` + `=` accepts the field `key=value` exactly when the key is the name, for keys without `=` |
| RoundTrip.FirstMatchAssoc | ngx_http_fancyindex_utils.c:225-256 | the first field of the pairs that matches gives the value of the first pair with that key |
| RoundTrip.JoinAppend | ngx_http_fancyindex_utils.c:170-191 | joining one more field appends the separator and the field |
| RoundTrip.FieldAt | ngx_http_fancyindex_utils.c:169-191 | the i-th field is the i-th pair written `key=value` |
| RoundTrip.FieldsOfAppend | ngx_http_fancyindex_utils.c:169-191 | one more pair gives one more field |
| RoundTrip.AddBoundJoin | ngx_http_fancyindex_utils.c:169-191 | after the sort literal, adding a bound is joining its pair with `&amp;` |
| RoundTrip.AddSetBoundJoin | ngx_http_fancyindex_utils.c:169-191 | adding a set bound joins the pair `key`, `%ld` text with `&amp;` |
| RoundTrip.PrefixAppend | ngx_http_fancyindex_utils.c:170-191 | proof step of the round trip (a sequence identity): appending a separated field after the `?` keeps the `?` in front |
| RoundTrip.AddBoundIsField | ngx_http_fancyindex_utils.c:169-191 | proof step of the round trip: after something was written, a set bound adds `&amp;key=value` |
| RoundTrip.SortLiteralFields | ngx_http_fancyindex_utils.c:141-162 | each sort literal is `?C=<key>&amp;O=<order>` |
| RoundTrip.SortFields | ngx_http_fancyindex_utils.c:141-162 | the two sort pairs join to `C=<key>&amp;O=<order>` |
| RoundTrip.UrlArgsAsFields | ngx_http_fancyindex_utils.c:126-195 | the fragment for a sort and a filter is `?` and the pairs C, O and the set bounds joined by `&amp;` |
| RoundTrip.PairsArePlain | ngx_http_fancyindex_utils.c:137-191 | the written keys are nonempty without `=` or `&`, and no value holds `&` |
| RoundTrip.PlainWellSeparated | ngx_http_fancyindex_utils.c:250-256 | such fields joined by `&amp;` are separated as the scanner expects |
| RoundTrip.LookupHrefQuery | ngx_http_fancyindex_utils.c:209-265 | looking up a key in the fragment without its `?` gives the value of that key's first pair |
| RoundTrip.AssocAppend | ngx_http_fancyindex_utils.c:225-256 | the first pair of a concatenation comes from its front when the front has the key |
| RoundTrip.AssocPairs | ngx_http_fancyindex_utils.c:137-191 | in the fragment's pairs `C` and `O` give the sort's letters and each bound key gives its `%ld` text, or nothing when unset |
| RoundTrip.AssocPairsAt | ngx_http_fancyindex_utils.c:137-191 | the value of any name among the fragment's pairs |
| RoundTrip.AssocSortPairs | ngx_http_fancyindex_utils.c:141-162 | the sort pairs give `C` and `O` their letters and nothing else |
| RoundTrip.AssocBoundPair | ngx_http_fancyindex_utils.c:169-191 | a bound's pair gives its key the `%ld` text when set, nothing when unset |
| RoundTrip.AssocChain | ngx_http_fancyindex_utils.c:137-191 | the first pair of the five parts comes from the first part that has the key |
| RoundTrip.ArgNumReadsBound | ngx_http_fancyindex_utils.c:267-292 | getarg_num reads a fitting bound's `%ld` text back as the bound, and an absent key as unset |
| RoundTrip.HrefRoundTrip | ngx_http_fancyindex_utils.c:72-195 | the criteria resolved from the fragment are the sort and the four bounds it was written from |
| RoundTrip.FilterRoundTrip | ngx_http_fancyindex_utils.c:107-124 | get_filter_criteria on the fragment gives back the four bounds |
| RoundTrip.BoundRoundTrip | ngx_http_fancyindex_utils.c:267-292 | getarg_num on the fragment gives back one bound |
| RoundTrip.SortRoundTrip | ngx_http_fancyindex_utils.c:72-105 | get_sort_criteria on the fragment gives back the sort, whatever the default |
| RoundTrip.SortFromLetters | ngx_http_fancyindex_utils.c:83-101 | the criterion's own key and order letters select that criterion |
| RoundTrip.ResolvedBoundsFit | ngx_http_fancyindex_utils.c:107-124 | every bound get_filter_criteria yields prints in at most 15 characters, so get_href never truncates it |
| RoundTrip.ReparseIsStable | ngx_http_fancyindex_utils.c:72-207 | resolving a query, writing the href and resolving that again gives the same sort and the same filter record |
| Examples.LookupTwo | ngx_http_fancyindex_utils.c:225-256 | in a query of two fields the first `name=…` field gives the value |
| Examples.KeyNeedsEquals | ngx_http_fancyindex_utils.c:231 | `C` is not found in `Color=red` |
| Examples.KeyInsideValue | ngx_http_fancyindex_utils.c:237-256 | `C` is not found inside the value of `x=C=N` |
| Examples.KeyInSecondField | ngx_http_fancyindex_utils.c:250-251 | `C` is found in the second field of `Color=red&C=N` |
| Examples.AmpersandSeparates | ngx_http_fancyindex_utils.c:251 | `&` separates `a=1&b=2` |
| Examples.EntitySeparates | ngx_http_fancyindex_utils.c:254-256 | `&amp;` separates `a=1&amp;b=2` |
| Examples.FirstFieldWins | ngx_http_fancyindex_utils.c:231-247 | in `C=S&C=M` the first `C` wins |
| Examples.NegativeNumber | ngx_http_fancyindex_utils.c:281-288 | `dirs=-42` reads -42 |
| Examples.NonDigitRejected | ngx_http_fancyindex_utils.c:281-282 | `dirs=12a` gives the default |
| Examples.InnerMinusRejected | ngx_http_fancyindex_utils.c:281-282 | `dirs=4-2` gives the default |
| Examples.PlusRejected | ngx_http_fancyindex_utils.c:281-282 | `dirs=+5` gives the default |
| Examples.EmptyNumberIsZero | ngx_http_fancyindex_utils.c:279-288 | `le=` and `le=-` read 0, not the default |
| Examples.LongNumberCut | ngx_http_fancyindex_utils.c:269-288 | after 15 digits whatever follows is never checked: `dirs=` followed by 15 digits and any tail without `&` reads those digits, not the default, whatever the tail holds |
| Examples.ExplicitUnsetReadsUnset | ngx_http_fancyindex_utils.c:267-292 | in every query a key whose value is `-1` reads -1, as an absent key does |
| Examples.ExplicitUnsetIsAbsent | ngx_http_fancyindex_utils.c:107-124 | `dirs=-1` gives the same filter as an empty query |
| Examples.OtherKeysAbsent | ngx_http_fancyindex_utils.c:225-264 | `files`, `le` and `ge` are not found in `dirs=-1` |
| Examples.SortFirstLetters | ngx_http_fancyindex_utils.c:77-101 | `C=Size&O=Desc` selects size descending: only first letters count |
| Examples.WordValues | ngx_http_fancyindex_utils.c:225-256 | `C` and `O` are found in `C=Size&O=Desc` |
| Examples.SizeValue | ngx_http_fancyindex_utils.c:231-241 | `C=Size&O=Desc` gives `C` the value `Size` |
| Examples.DescValue | ngx_http_fancyindex_utils.c:250-256 | `C=Size&O=Desc` gives `O` the value `Desc` |
| Examples.SortLowerCaseOrder | ngx_http_fancyindex_utils.c:85-89 | `O=d` is ascending: the order test is case-sensitive |
| Examples.SortUnknownKey | ngx_http_fancyindex_utils.c:83-102 | a lower-case `C=s` keeps the default |
| Examples.SortAbsentKey | ngx_http_fancyindex_utils.c:75-104 | without `C` the default stays |
| Examples.UrlArgsExample | ngx_http_fancyindex_utils.c:157-185 | size descending with dirs 5 and le 100 writes `?C=S&amp;O=D&amp;dirs=5&amp;le=100` |
| Examples.UrlArgsFilterOnly | ngx_http_fancyindex_utils.c:175-179 | without a sort the first set bound takes the `?`: `?files=7` |

## Left out

- Logging (`ngx_log_error` at lines 213-215, 227-229, 243-245 and 260-262) has no effect on results and is not modelled.
- The request object is reduced to its argument string `r->args` as a `seq<char>`. Connection, log and request-object lifetime are not modelled.
- `format_string` with a non-NULL format (the `vsnprintf` path at lines 56-64) is not modelled: the core only calls it with NULL, from get_href.
- ArgScanner.CopyValue: the `%s` at line 241 reads from the value start up to the next NUL, which can lie past the end of the unterminated arguments. The model hands it the rest of the arguments only. ArgScanner.TruncatedCopy shows the bytes written do not depend on anything after the value, so only the memory read past the end is not modelled.
- ArgScanner.GetArgStr: takes a non-null destination array. The code does not check `out` for NULL and would pass it to `snprintf`.
- ArgScanner.ValidName: names holding `&` or NUL are excluded. Every caller passes one of the constants `C`, `O`, `dirs`, `files`, `le`, `ge`.
- Href.GetUrlArgs: requires the whole fragment to fit in `maxSize`. When a piece is truncated, `npos` moves past `epos` and `epos - npos` wraps as a `size_t`. That case is not modelled. get_href always fits (Pool.HrefFits).
- Pool.ScratchPool.GetHref: requires every bound to print in at most 15 characters. Every bound get_filter_criteria yields does (RoundTrip.ResolvedBoundsFit). A caller-built filter with a longer `long` could be truncated in the 128-byte slot, and that case is not modelled.
- `long` is an unbounded `int`. `atol` overflow cannot happen: at most 15 characters reach it.
- `isdigit` is taken as the ASCII digits `0`-`9`, as in the C locale.
- The counters `dirsCounter`/`filesCounter` and the fields `mTimeLessThanMs`/`mTimeGreaterThanMs` are set to 0 and never read by this core.
- The process-wide pool is shared without synchronisation. Concurrency is not modelled. Reuse of a slot after 16 more claims is stated at the cursor level only (Pool.ClaimsDoNotRepeat).
- A NULL sort or filter pointer to get_url_args is modelled as `Option.None`. An enum value outside the six criteria cannot be represented.
