# fborm in Dafny

fborm maps the XML that the FogBugz API returns onto plain Python objects. It also
maps those objects back onto the column lists and keyword arguments that the API
takes. This project models the core of fborm and proves what that core promises:

- the converters and their combinators (`fborm/types.py`);
- the engine that fills a record from a response element and writes it back
  (`fborm/parse.py`);
- the comma-or-whitespace tokenizer (`fborm/util.py`);
- the object schemas (`fborm/objects.py`).

Modules:

- `Wrappers`: `Option` and `Result`. A raised Python exception becomes an `Err` carrying a `Types.Error`.
- `Util`: `comma_or_space_split`, with `re.split` on `(?:\s*,\s*)+|\s+` modelled as splitting at
  maximal runs of separator characters. Also Python's `sep.join`.
- `Types`: the response tree (`Node`: an element with tag, attributes and children, or a text
  string), `find` (a pre-order search of the descendants), `.text`, `int(text, 10)`,
  `strptime` with `fbisofmt`, `isoformat`, the scalar converters, and converter
  descriptors. A descriptor (`Descriptor`) is a callable together with the attributes
  fborm hangs on it: `takes_map`, `takes_data`, `attrib`, `colname`, `resname`,
  `settable`, `setname`, `setconvert` and `ignore`. Also the combinators (`fbcol`,
  `fblistof`, `fbcommalistof`, `fbconditional`, `fbminievents`, `fbevents`,
  `fblatestevent`, `fbattr`, `fbself`).
- `Engine`: what `_convert`, `extract` and `extract_all` compute, as functions (`ConvertField`,
  `ExtractSpec`, `ExtractItems`). Also how a descriptor is called (`Call`), and the
  properties of both extraction passes.
- `Ordering`: Python 2's comparison of the values a record holds, and the sort that
  `extract_all` applies.
- `Parse`: `_convert` and `extract` as methods that update a `Record` (the jsontree) in place.
  Each is proved against the `Engine` functions. Also `extract_all`/`_sort_by`,
  `keys2cols`, `fbargs`, `fbsetconvert` and `_dt2fbdt`, with the round trips between
  reading and writing.
- `Objects`: the schema dictionaries of `fborm/objects.py`, and what they guarantee. The
  schemas are built on the corrected `fblistof` (see "## Findings"): as written,
  `rgAttachments = fblistof(fbAttachment)` makes every mini-event and event fail to
  extract (`Objects.MiniEventAsWrittenFails`), so the lemmas about extracted events
  describe the program as evidently intended.

A Python dict's iteration order is observable here: it fixes the column order of
`keys2cols` and the order in which `extract` converts fields. A schema is therefore a
sequence of `(name, descriptor)` fields, in the order the literals are written.

Behaviour of the code worth knowing, which the model follows:

- `fblistof` over an element that is absent fails (`Could not find attribute`); there is
  no empty-list default.
- `fbargs` silently drops a field that is not settable; it does not raise.
- `dict(key=..., **base)` with a key that `base` already holds raises a `TypeError`
  (`Objects.DictWith`); the later value does not win.

Where the documentation of fborm and its code disagree, the model follows the code:

- The e-mail fields of a mini-event are documented as "only set when fEmail is true"
  (fborm/objects.py:173-174).
  But `_convert` looks up a field's element before an `fbconditional`'s conditions run.
  So an event without, say, an `sFrom` element fails to extract even when `fEmail` is
  false (`Objects.EmailElementRequired`); the field is never left out as None.

## Model

| member | source | states |
|---|---|---|
| Util.CommaOrSpaceSplit | fborm/util.py:22 | every token is non-empty and holds no comma and no whitespace |
| Util.PiecesHaveNoSeparator | fborm/util.py:10 | no piece that the separator pattern splits off holds a separator |
| Util.SplitKeepsEveryOtherCharacter | fborm/util.py:10-22 | the tokens, concatenated, are the input with every comma and whitespace character removed |
| Util.SplitAfterRun | fborm/util.py:10-22 | a run of separators before the text adds no token, even an empty one |
| Util.SplitOfSeparators | fborm/util.py:10-22 | text made only of separators gives no token |
| Util.SplitCons | fborm/util.py:10-22 | a token after a run of separators, followed by a separator or the end, is the first token and the rest splits on its own |
| Util.SplitJoin | fborm/util.py:10-22 | splitting the comma-join of clean tokens gives those tokens back, so the split is idempotent on normalised text |
| Util.SplitInterleaved | fborm/util.py:10-22 | tokens with non-empty separator runs between them (and optional runs at the ends) are exactly what the split returns |
| Util.SplitExampleMixed | fborm/util.py:15-16 | the first documented example gives `['asdf', 'a', 'df', 'sad', 'f']` |
| Util.SplitExampleCommas | fborm/util.py:17-18 | `',asdf,'` gives `['asdf']` |
| Util.SplitExampleSpaces | fborm/util.py:19-20 | `' asdf '` gives `['asdf']` |
| Types.FindIn | fborm/parse.py:57 | a found node is an element with the requested tag |
| Types.FirstTagged | fborm/parse.py:57 | the first element of a list with a given tag: every earlier one has another tag, and there is none exactly when no element has it |
| Types.FirstTaggedAppend | fborm/parse.py:57 | the first tagged element of a concatenation comes from the first part when it has one |
| Types.FindInIsFirstInDocumentOrder | fborm/parse.py:57 | `find` returns the first element with the tag among all descendants in document (pre-)order |
| Types.FindInFindsOccurrence | fborm/parse.py:57-62 | find succeeds exactly when some descendant element has that tag |
| Types.Lower | fborm/parse.py:59 | `lower()` keeps the length, maps each of `A`-`Z` to its lower-case letter and leaves every other character alone |
| Types.NatToDecimal | fborm/types.py:36 | the decimal spelling of a number is a non-empty string of digits |
| Types.NatToDecimalValue | fborm/types.py:36 | the decimal spelling reads back as the number |
| Types.DigitsValueInjective | fborm/types.py:27 | two digit strings of equal width with equal value are equal |
| Types.PadValue | fborm/types.py:27 | a zero-padded field reads back as its number and has the padded width |
| Types.PadOfDigits | fborm/types.py:27 | padding a digit string's value to its own width gives the string back |
| Types.ParseDecimalOfDecimal | fborm/types.py:36 | `int(unicode(i), 10) == i` for every integer, negative ones included |
| Types.ParseSignedDigits | fborm/types.py:36 | `int()` of an optional minus sign and digits is the signed value of the digits |
| Types.ParseDecimal | fborm/types.py:36 | `int(text, 10)` succeeds exactly on a digit string with an optional sign, optional whitespace after the sign and optional whitespace around it all (whitespace being Python 2.7's `Py_UNICODE_ISSPACE`); the value is negative only with a minus sign; otherwise a ValueError naming the text |
| Types.ParseSignSpaceDigits | fborm/types.py:36 | `int()` skips whitespace between the sign and the digits and gives the signed value of the digits |
| Types.MinusSpaceExample | fborm/types.py:36 | `int(u'- 12', 10) == -12` |
| Types.PlusSpaceExample | fborm/types.py:36 | `int(u'+ 7', 10) == 7` |
| Types.UnicodeSpaceExample | fborm/types.py:36 | `int(u'\xa012', 10) == 12`: a no-break space is whitespace |
| Types.MalformedIntExamples | fborm/types.py:36 | `int()` raises ValueError on `1 2`, `--1` and a bare `-` |
| Types.ParseFbDateTime | fborm/types.py:51 | the model of `strptime` accepts only full-width, upper-case `fbisofmt`-shaped text, reading the year and second from their positions, with zero microseconds; otherwise a ValueError naming the text |
| Types.IsoLayoutFields | fborm/types.py:27 | where each field of `fbisofmt` sits in the 20-character text |
| Types.ParseFbDateTimeOfLayout | fborm/types.py:27 | `strptime` with `fbisofmt` reads back every datetime written in that format, without its microseconds |
| Types.LayoutOfParseFbDateTime | fborm/types.py:27 | every text that the model of `strptime` accepts is the `fbisofmt` spelling of the datetime it gives |
| Types.ConvertBool | fborm/types.py:41-42 | fbbool is true exactly when the text is `true` |
| Types.ConvertString | fborm/types.py:44-45 | fbstring is the element's text |
| Types.ConvertInt | fborm/types.py:29-36 | fbint gives 0 for empty text, else the value of `int(text, 10)` or its ValueError |
| Types.ConvertDateTime | fborm/types.py:47-51 | fbdatetime gives `''` exactly for empty text; otherwise, in the model, a datetime read from full-width, upper-case `fbisofmt`-shaped text, with zero microseconds, or a ValueError |
| Types.Lookup | fborm/parse.py:40-42 | `typemap.get(name)` is None exactly when no field has that name, and otherwise a descriptor stored under that name |
| Types.IfGiven | fborm/types.py:88-97 | an fbcol attribute is set exactly when its argument is truthy, and then to that argument |
| Types.FbCol | fborm/types.py:80-99 | fbcol keeps the wrapped converter's call, takes_map and takes_data, and takes every other attribute from its own arguments |
| Types.FbListOf | fborm/types.py:53-68 | fblistof of a dict is a record-list converter that takes the name map; of a callable, a mapping converter; anything else is a TypeError |
| Types.FbListOfAsWritten | fborm/types.py:56-60 | as written, fblistof of a dict builds a converter around `_extractall`; the other cases are as in FbListOf |
| Types.FbMiniEvents | fborm/types.py:117-121 | fbminievents is a non-settable record list read from and requested as `minievents`, built on the corrected `fblistof` |
| Types.FbEvents | fborm/types.py:123-127 | fbevents is a non-settable record list read from and requested as `events`, built on the corrected `fblistof` |
| Types.FbCommaListOf | fborm/types.py:72-78 | fbcommalistof is a plain converter over the split text: no name map, no record, not an attribute, settable |
| Types.FbConditional | fborm/types.py:101-115 | fbconditional wraps the converter with its conditions and takes the record (takes_data), not the name map |
| Types.FbLatestEventAsWritten | fborm/types.py:139-143 | as written, fblatestevent reads `events`, requests `latestEvent`, and has lost takes_map |
| Types.FbLatestEvent | fborm/types.py:139-143 | corrected fblatestevent: the first element of a record list, still taking the name map |
| Types.FbAttr | fborm/types.py:145-154 | fbattr is a non-settable attribute converter around the given converter |
| Engine.First | fborm/types.py:130-136 | `_firstelem` gives a list's first item, None for an empty list, and any other value unchanged |
| Engine.CheckConditions | fborm/types.py:107-109 | the conditions hold exactly when every named entry exists and passes its check; a missing entry is a KeyError for one of them |
| Engine.CallArity | fborm/parse.py:54-68 | a converter called with an argument its signature does not take raises TypeError, whatever the node |
| Engine.CallEach | fborm/types.py:54-55 | `_listof` converts every child, one result per child, and fails exactly when some child's conversion fails |
| Engine.KeptMembers | fborm/parse.py:99-100 | extract_all keeps exactly the items that are not `'\n'` strings |
| Engine.KeptOne | fborm/parse.py:99-100 | one item is kept exactly when it is not a `'\n'` string |
| Engine.KeptAppend | fborm/parse.py:99-100 | the filter keeps order: on a concatenation it filters each part |
| Engine.Collect | fborm/parse.py:99-102 | the list of outcomes fails exactly when one of them fails, and otherwise holds every record in order |
| Engine.ExtractEachCollects | fborm/parse.py:99-102 | the comprehension collects extract's outcome on each item, in order |
| Engine.ExtractEachPerItem | fborm/parse.py:99-102 | one record per item, each what extract gives for that item; failure exactly when some item fails |
| Engine.Pass | fborm/parse.py:82-88 | a pass holds only fields of the schema whose takes_data matches the pass |
| Engine.PassComplete | fborm/parse.py:82-88 | every field whose takes_data matches the pass is in that pass |
| Engine.PassStoredNamesCons | fborm/parse.py:82-88 | the names a pass stores, taken apart at its first field |
| Engine.PassesStoreAllNames | fborm/parse.py:82-88 | the two passes together store the name of every field that is not ignored |
| Engine.PassDistinct | fborm/parse.py:82-84 | a pass of a dict's fields has no repeated name |
| Engine.PassNamesDisjoint | fborm/parse.py:82-88 | no name is stored by both passes |
| Engine.ExtractSpec | fborm/parse.py:70-89 | the extracted record's keys are exactly the names of the fields that are not ignored |
| Engine.ConvertSeq | fborm/parse.py:82-88 | converting a sequence of fields adds exactly their stored names and keeps every other entry |
| Engine.FindEither | fborm/parse.py:57-62 | the element `find(name)` returns when there is one, else the one `find(name.lower())` returns; success exactly when an element with either tag exists; otherwise the error names the mapped name |
| Engine.ConvertField | fborm/parse.py:48-68 | `_convert` leaves the record alone for an ignored field, and otherwise changes only the entry under the field's name |
| Engine.StoredNamesMember | fborm/parse.py:52-53 | a name is stored exactly when some field with that name is not ignored |
| Engine.IgnoredFieldIsAbsent | fborm/parse.py:52-53 | an ignored field never appears in the extracted record |
| Engine.CheckConditionsReadsNamedEntries | fborm/types.py:107-109 | the conditions read only the entries they name |
| Engine.ConvertSeqSeen | fborm/parse.py:87-88 | each field of a pass is converted from a record that still holds every entry the pass did not store |
| Engine.ConditionalField | fborm/types.py:102-105 | a conditional field is None when its conditions fail, and otherwise the wrapped converter's value on the found element |
| Engine.DeferredFieldSeen | fborm/parse.py:81-88 | a takes_data field is converted after, and sees, every value of the first pass |
| Engine.ConditionalSeesFirstPass | fborm/parse.py:81-88 | a conditional field whose conditions name first-pass fields is None or the converted element, as the final record's values of those fields decide |
| Engine.ScalarCalls | fborm/types.py:29-51 | calling fbint, fbbool, fbstring and fbdatetime through the descriptor protocol is the scalar conversion |
| Engine.ListOfMapsChildren | fborm/types.py:54-55 | fblistof of a callable succeeds exactly when every child converts, giving one value per child in order |
| Engine.CallEachTokens | fborm/types.py:72-78 | converting the split tokens succeeds exactly when every token converts, and then gives each token's value in order |
| Engine.CommaListOfTokens | fborm/types.py:72-78 | fbcommalistof succeeds exactly when every token of the split text converts, and then holds each token's value, in order |
| Engine.AttrReadsAttribute | fborm/types.py:146-150 | fbattr gives None for an absent attribute, and otherwise the converted attribute text |
| Engine.FirstElemOfRecords | fborm/types.py:129-137 | a forwarding `_firstelem` over a record list gives the first record, or None for no records |
| Engine.ListOfRecords | fborm/types.py:56-61 | fblistof of a dict gives the list of records extracted from the element's children, and fails with the first item that fails to extract |
| Engine.ListOfSchemaAsWrittenFails | fborm/types.py:56-57 | as written, any call of fblistof's dict converter is a NameError for `extract_all`; the corrected one does not fail on an empty element |
| Engine.LatestEventAsWrittenFails | fborm/types.py:129-143 | as written, a fblatestevent field always fails, and fails with a TypeError once `events` is found |
| Engine.LatestEventReadsFirst | fborm/types.py:139-143 | corrected fblatestevent stores the first record of `events`, or None when there is none |
| Engine.SelfReadsOwnText | fborm/types.py:156-159 | fbself is a non-settable attribute reader, and the field using it stores the node's own text |
| Engine.ConvertFieldAttribute | fborm/parse.py:54-55 | an attribute field stores the converter called on the node with the mapped name, or fails with its error |
| Engine.ConvertFieldMissingElement | fborm/parse.py:56-62 | a field whose mapped name occurs neither as it is nor lower-cased is a RuntimeError naming it |
| Engine.ConvertFieldElement | fborm/parse.py:56-68 | an element field stores the converter called on the found element, with the name map, the record or nothing, as its flags say; a failed lookup or call is the field's failure |
| Engine.EarlyFieldSeen | fborm/parse.py:81-86 | converting a first-pass field from any record stores its final extracted value |
| Engine.FirstPassFieldIgnoresRecord | fborm/parse.py:63-68 | a field without takes_data converts to the same value whatever record it is converted into |
| Engine.ExtractedFieldValue | fborm/parse.py:48-86 | the value extract stores for a first-pass field is the converter's value on the node (attribute) or on the element found under the mapped name |
| Engine.ExtractFailsOnFailingField | fborm/parse.py:70-89 | a field that fails whatever the record makes extract fail, in either pass |
| Engine.ExtractFailsOnMissingElement | fborm/parse.py:56-88 | a schema field whose element is absent makes extract fail |
| Ordering.CompareStr | fborm/parse.py:103 | byte strings compare as equal exactly when they are equal |
| Ordering.CompareStrLexicographic | fborm/parse.py:103 | byte strings compare by their first differing character, and a proper prefix comes first |
| Ordering.CompareDate | fborm/parse.py:103 | datetimes compare as equal exactly when they are equal |
| Ordering.CompareIntsLexicographic | fborm/parse.py:103 | equal-length integer sequences compare by their first differing entry |
| Ordering.CompareDateChronological | fborm/parse.py:103 | datetimes compare by their most significant differing field, year first and microsecond last |
| Ordering.CompareByType | fborm/parse.py:103 | values of lower type rank come first; numbers compare by value, and dates, lists and strings by their own order |
| Ordering.CompareSeqLexicographic | fborm/parse.py:103 | lists compare by their first entries that do not compare equal, and otherwise by length |
| Ordering.CompareStrTrans | fborm/parse.py:103 | string order is transitive |
| Ordering.CompareIntsTrans | fborm/parse.py:103 | order on integer sequences is transitive |
| Ordering.CompareStrChains | fborm/parse.py:103 | any chain of two string comparisons, strict or not, gives the comparison of the ends |
| Ordering.CompareDateChains | fborm/parse.py:103 | likewise for datetimes |
| Ordering.CompareTrans | fborm/parse.py:103 | likewise for any values |
| Ordering.CompareSeqTrans | fborm/parse.py:103 | likewise for lists |
| Ordering.KeyLeTrans | fborm/parse.py:103 | key order is transitive |
| Ordering.SortedPairwise | fborm/parse.py:103 | in a sorted list every earlier key is no later than every later key |
| Ordering.CompareFlip | fborm/parse.py:103 | comparison is antisymmetric |
| Ordering.KeyLeTotal | fborm/parse.py:103 | any two sort keys are ordered one way or the other |
| Ordering.Insert | fborm/parse.py:103 | insertion adds exactly the one item |
| Ordering.SortByKey | fborm/parse.py:103 | sorting is a permutation |
| Ordering.InsertSorted | fborm/parse.py:103 | insertion into a sorted list keeps it sorted |
| Ordering.SortByKeySorted | fborm/parse.py:103 | the sorted list is in key order |
| Parse.Record.constructor | fborm/parse.py:80 | a new jsontree is empty |
| Parse.Convert | fborm/parse.py:48-68 | `_convert` updates the record as ConvertField says, or leaves it unchanged and reports the error |
| Parse.ConvertHead | fborm/parse.py:86 | converting the first field of a sequence leaves the rest of the sequence to convert |
| Parse.ConvertAll | fborm/parse.py:87-88 | the second loop leaves the record as ConvertSeq says, or reports its first error |
| Parse.PassAppend | fborm/parse.py:82-84 | appending a field adds it to the pass that its takes_data selects |
| Parse.PassStep | fborm/parse.py:82-86 | one iteration of the first loop defers the field or converts it now |
| Parse.FirstPassField | fborm/parse.py:82-86 | one iteration of the first loop, against the two passes |
| Parse.FirstPass | fborm/parse.py:81-86 | the first loop collects exactly the takes_data fields and converts all the others in order |
| Parse.Extract | fborm/parse.py:70-89 | extract builds exactly the record ExtractSpec describes, or reports its error |
| Parse.SortKey | fborm/parse.py:108-109 | the key is the record's values of the names, in order; KeyError exactly when a name is missing |
| Parse.Keyed | fborm/parse.py:103 | every record gets its own key; failure exactly when some record lacks a sort name |
| Parse.InsertRecords | fborm/parse.py:103 | insertion keeps the multiset of records |
| Parse.SortRecords | fborm/parse.py:103 | sorting keeps the multiset of records |
| Parse.SortKeepsKeys | fborm/parse.py:103 | after sorting, every record still carries its own key |
| Parse.SortRecordsBySorts | fborm/parse.py:103-110 | sorting gives a permutation of the records in key order, and fails exactly when some record lacks a sort name |
| Parse.ExtractAll | fborm/parse.py:91-103 | extract_all, sorted or not, returns the extracted records of the kept items and no others |
| Parse.ExtractAllInOrder | fborm/parse.py:99-102 | without sort_by, extract_all gives one record per kept item, in order, and fails exactly when one of them fails |
| Parse.SortByOneName | fborm/parse.py:105-107 | a single sort name acts as the one-element list |
| Parse.ExtractAllSorted | fborm/parse.py:99-110 | with sort_by, extract_all gives a permutation of the extracted records in key order, or the first failure |
| Parse.RequestedFields | fborm/parse.py:27-29 | the requested fields are exactly the public fields that are not attributes |
| Parse.ColumnsAreRequested | fborm/parse.py:25-29 | keys2cols names exactly the requested fields, each by its colname or name through the name map |
| Parse.Keys2Cols | fborm/parse.py:16-29 | splitting keys2cols' output gives its columns back when no column is empty or holds a separator |
| Parse.Keys2ColsOfAttributes | fborm/parse.py:25-29 | a schema with nothing requested gives an empty column list |
| Parse.NothingRequested | fborm/parse.py:27-29 | with no requested field the selection is empty |
| Parse.BeforeDot | fborm/parse.py:113 | `split('.')[0]` is a dot-free prefix, ending just before the first dot |
| Parse.FbSetConvert | fborm/parse.py:115-122 | fbsetconvert fails exactly on a record or a list holding one, the one value the model gives no string form |
| Parse.FbSetConvertAll | fborm/parse.py:120-121 | one converted item per list item, failing exactly when one fails |
| Parse.BeforeDotOf | fborm/parse.py:113 | the first piece of dot-free text followed by a dot part is that text |
| Parse.Dt2FbDt | fborm/parse.py:112-113 | `_dt2fbdt` is the `fbisofmt` spelling, with the microseconds dropped |
| Parse.DateRoundTrip | fborm/parse.py:112-119 | fbdatetime reads back what fbsetconvert writes for a datetime, less its microseconds |
| Parse.DateReadWrite | fborm/parse.py:115-119 | fbsetconvert writes back exactly the text fbdatetime read, the empty date included |
| Parse.IntRoundTrip | fborm/parse.py:122 | fbint reads back what fbsetconvert writes for an integer |
| Parse.StringRoundTrip | fborm/parse.py:122 | fbstring and fbsetconvert are inverse on strings |
| Parse.BoolWriteIsNotRead | fborm/parse.py:122 | fbsetconvert writes a bool as `True`/`False`, which fbbool reads as false; only `true` reads as true |
| Parse.DecimalIsToken | fborm/parse.py:122 | the spelling of an integer is a single token for the splitter |
| Parse.SetConvertInts | fborm/parse.py:120-122 | each integer of a list is written as its decimal spelling |
| Parse.CallEachDecimals | fborm/types.py:72-78 | fbint reads back each decimal spelling |
| Parse.DecimalsSplitBack | fborm/parse.py:120-121 | splitting the comma-join of integer spellings gives those spellings back |
| Parse.IntListRoundTrip | fborm/parse.py:120-121 | fbcommalistof(fbint) reads back what fbsetconvert writes for a list of integers |
| Parse.UnknownNameArgument | fborm/parse.py:40-45 | an item that the typemap lacks is written under its own name, through the name map, with fbsetconvert, unless its name is private |
| Parse.FbArgsFails | fborm/parse.py:40-45 | fbargs fails exactly when a writable item cannot be converted, with the first such item's error |
| Parse.FbArgsKeys | fborm/parse.py:40-45 | the argument names are exactly the mapped names of the writable items |
| Parse.FbArgsLastWriter | fborm/parse.py:40-45 | an argument holds the converted value of the last writable item mapped to that name |
| Objects.DictWith | fborm/objects.py:185-188 | `dict(k=v, **base)` succeeds exactly when no new key is in base, putting the new fields first; otherwise a duplicate-keyword error for a key of base |
| Objects.DictWithSucceeds | fborm/objects.py:185-188 | new keys that base lacks always give a dict |
| Objects.NamesOfConcat | fborm/objects.py:185-188 | the keys of the combined dict are those of both parts |
| Objects.DictWithNames | fborm/objects.py:185-188 | the combined dict's keys are the new keys and base's keys |
| Objects.AddField | fborm/objects.py:212-224 | adding one new key gives base's keys plus that key |
| Objects.BugLacksEventKeys | fborm/objects.py:195-209 | fbBug has none of `latestEvent`, `events` and `minievents` |
| Objects.BugEventKeys | fborm/objects.py:185-188 | fbBugEvent is fbBugMiniEvent plus `s` and `sHTML` |
| Objects.BugWithLatestEventKeys | fborm/objects.py:212-214 | fbBug_withLatestEvent is fbBug plus a non-settable `latestEvent` |
| Objects.BugWithEventsKeys | fborm/objects.py:217-219 | fbBug_withEvents is fbBug plus a non-settable `events` |
| Objects.BugWithMiniEventsKeys | fborm/objects.py:222-224 | fbBug_withMiniEvents is fbBug plus a non-settable `minievents` |
| Objects.FilterRequestsNoColumn | fborm/objects.py:25-29 | fbFilter requests no column, since all its fields are attributes |
| Objects.BugIxBugKeys | fborm/objects.py:191-192 | fbBug_ixBug holds only `ixBug` |
| Objects.MilestoneIsFixFor | fborm/objects.py:243 | fbMilestone is fbFixFor |
| Objects.LookupAt | fborm/objects.py:227-238 | the lookup finds the first field with the name |
| Objects.FixForLookups | fborm/objects.py:232-238 | the descriptors of `fDeleted`, `dt` and `setixForForDependency` are as written |
| Objects.FixForLookup | fborm/objects.py:232-238 | each of those names is found at its position |
| Objects.FixForArguments | fborm/objects.py:232-238 | fbargs writes `fDeleted` as `fAssignable` and `dt` as `dtRelease`, and never writes `setixForForDependency` |
| Objects.MiniEventFirstHalfDistinct | fborm/objects.py:157-168 | the first half of fbBugMiniEvent's keys are distinct |
| Objects.MiniEventSecondHalfDistinct | fborm/objects.py:169-182 | the second half's keys are distinct |
| Objects.MiniEventHalvesApart | fborm/objects.py:156-182 | no key occurs in both halves |
| Objects.MiniEventWellFormed | fborm/objects.py:156-182 | fbBugMiniEvent has no repeated key |
| Objects.FirstPassStores | fborm/parse.py:82-86 | a field that is neither deferred nor ignored is stored by the first pass |
| Objects.EmailDescriptor | fborm/objects.py:152-153 | fbstring_fEmail is fbstring conditional on a truthy `fEmail` |
| Objects.EmailCheck | fborm/objects.py:152-153 | its conditions hold exactly when `fEmail` is truthy |
| Objects.EmailConditional | fborm/objects.py:152-153 | a field using fbstring_fEmail is None when `fEmail` is false, and otherwise the string (in a record that extracts, so with the corrected `fblistof`) |
| Objects.MiniEventEmailFields | fborm/objects.py:170-182 | `fEmail` is a plain bool and the eight email fields use fbstring_fEmail |
| Objects.EmailFieldsFollowFEmail | fborm/objects.py:170-182 | in an extracted mini-event (with the corrected `fblistof`), each email field is None unless `fEmail` is true, and then the element's string |
| Objects.EmailElementRequired | fborm/objects.py:173-182 | a mini-event lacking the element of an e-mail field fails to extract, whatever `fEmail` is |
| Objects.MiniEventAsWrittenWellFormed | fborm/objects.py:156-182 | fbBugMiniEvent as written has no repeated key |
| Objects.MiniEventAsWrittenFails | fborm/objects.py:169 | as written, every mini-event fails to extract, because of `rgAttachments` |

## Left out

- `fbfloat` (`fborm/types.py:38-39`) is not modelled: the model has no floating point.
- `fbixBugChildren`, named at `fborm/objects.py:198`, is not defined in `fborm/types.py`,
  so importing `fborm/objects.py` fails. The model keeps the field as an `Undefined`
  converter whose call fails with an AttributeError.
- Types.ParseFbDateTime, Types.ConvertDateTime and Types.LayoutOfParseFbDateTime:
  `strptime` also accepts fields narrower than their full width (`2012-1-2T3:4:5Z`), and it matches the pattern ignoring case, so
  `t` and `z` are accepted for `T` and `Z`. The model accepts only the full-width,
  upper-case spelling, which is what the FogBugz API sends.
- Types.ParseDecimal and Types.ConvertInt: `int()` of a unicode string also reads
  every Unicode decimal digit (such as Arabic-Indic `\u0661`) as its ASCII digit; the model
  reads only `0`-`9` and gives a ValueError for the others. The whitespace it skips is
  Python 2.7's list, which follows Unicode 5.2.
- Ordering.Compare: Python 2 raises a TypeError when it compares a datetime with
  a value of another type; the model orders such values by type instead. Two records
  compare as equal; Python 2 compares dicts by length and then by their sorted
  items. That `sorted` is stable is not proved.
- Parse.Record.constructor: the jsontree auto-creates a missing key on read. The
  model treats it as a plain dict, so a missing key is a KeyError.
- Parse.FbArgs: does not model the UTF-8 encoding of values or `str()` of a non-ASCII name.
- Parse.StringRoundTrip and Parse.FbSetConvert: strings are sequences of characters,
  with no encoding. In the source, fbstring returns UTF-8 bytes and fbsetconvert calls
  `unicode()` on them, which raises UnicodeDecodeError for non-ASCII bytes. So the
  round trip holds in the source for ASCII text only.
- Util.CommaOrSpaceSplit: `\s` is ASCII whitespace only, as for a byte-string pattern.
  Types.Lower changes only ASCII letters.
- BeautifulSoup's `NavigableString` details (comments, CDATA, entity decoding) are not
  modelled. A text node stands for both a bare string and the `_obj(text=...)` wrapper.
- Python's dict hash order: a schema's fields are in the order the literal writes them.
- Parse.FbSetConvert: `unicode()` of a nested record (a dict's `repr`) is not modelled
  and gives an `UnmodelledStringForm` error. A `setter` of `fbcol` is a total function
  from values to text.
- `_convert`'s `typemap` parameter is unused by the source and is not passed.
- The network and file helpers of `fborm/util.py` (`download`, `download_to_file`), and the
  API session modules, do I/O and are not part of this model.

## Findings

| source | as written | input that shows it | evidently intended | confidence | as-written member | corrected member |
|---|---|---|---|---|---|---|
| fborm/types.py:56-57 | `_extractall` calls `extract_all`, which `fborm/types.py` never imports, so every call raises NameError | any `fblistof(dict)` field, e.g. `fbevents(fbBugEvent)` on any response | extract the children with `fborm.parse.extract_all` | not executed | Engine.ListOfSchemaAsWrittenFails | Engine.ListOfRecords |
| fborm/types.py:129-143 | `_firstelem` wraps the list converter in a partial without `takes_map`, so `_convert` calls it with one argument and `_extractall` raises TypeError | any response with an `events` element, for a field `fblatestevent(fbBugEvent)` | forward the name map and keep `takes_map`, giving the first event record or None | not executed | Engine.LatestEventAsWrittenFails | Engine.LatestEventReadsFirst |

