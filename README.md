# SubRipForCocoa in Dafny

A model of the core of SubRipForCocoa. The library reads SubRip (`.srt`)
subtitle documents into timed cues (`SubRip`, `SubRipItem`). It also
recognises the inline style tags `<i>`, `<b>`, `<u>` and `<font ...>`
(`NSScanner (SRTTags)`). Tagged text is held in a tree of elements
(`JXSRTElement`).

The headers declare the interfaces but ship no implementation bodies. Each
behaviour below is therefore the model's reading of the declared contract
and of the SubRip format. Where a choice was needed, it is named under
"## Left out".

Modules:

- `Decimal` covers decimal digit strings: their value, printing and
  zero-padding.
- `Timecode` covers times, held as whole milliseconds. It provides
  `_convertCMTimeToString:` (`HH:MM:SS,mmm`), the parser of one timecode
  and the whole-second conversion.
- `Lines` splits a document into lines on `\n` and drops one trailing
  `\r` from each line.
- `SubRipFormat` is the block grammar of `_populateFromString:`. It has one
  function per `SubRipScanPosition` state:
  - `ScanIndex`, between blocks: blank lines are skipped and a number line
    opens a block;
  - `ScanTimes`, after a number line: a times line `start --> end`,
    optionally followed by positioning tokens;
  - `ScanText`, inside a cue: text lines, until a blank line closes the
    block.

  It also holds the de-facto block form, the inverse used in the
  round-trip lemma.
- `SubRip` holds the classes:
  - `SubRipItem`: fields `startTime`, `endTime` and `text`, the time
    strings, the whole-second times and `containsString:`;
  - `SubRip`: `subtitleItems`, the line-by-line parser, the total
    character count and the two index lookups.
- `TagScanner` holds the tag grammar as functions (`TagAt` and its
  pieces) and the four tag-name constants. Its `Scanner` class (a string
  and a `scanLocation`) carries `scanSRTTag:attributes:isOpen:isClosed:`
  as an imperative scan proved equal to `TagAt`. The written form of a tag
  (`TagText`) is the inverse used in the round-trip lemma: every
  well-formed tag text reads back as its name, its attributes (the last
  value of a repeated key wins) and its open/closed flags. Conversely,
  every text the grammar accepts is such a written tag.
- `TagTree` covers `JXSRTElement`:
  - `parent`, `tagName`, `text`, `attributes` and the ordered children;
  - `path`, `parentWithTagName:` and `attributeForKey:`;
  - `addChild:` and `removeChild:`;
  - the copy.

  Acyclicity of the parent links is stated over a ghost set of nodes and
  is proved to be preserved by `addChild:` (when the child is not an
  ancestor) and by `removeChild:`.

## Model

| member | source | states |
|---|---|---|
| Decimal.ValueOfDigits | SubRip/SubRip.h:70 | a number printed in decimal reads back as the same number |
| Decimal.ValueIgnoresLeadingZeros | SubRip/SubRip.h:46 | leading zeros do not change the value of a digit string |
| Decimal.ValueOfPad | SubRip/SubRip.h:46 | a zero-padded field reads back as the padded number |
| Decimal.PadLength | SubRip/SubRip.h:46 | a padded field has exactly the requested width iff the number fits in it |
| Timecode.InSeconds | SubRip/SubRip.h:50-51 | whole seconds of a time: the largest r with r*1000 <= t, equal to hours*3600 + minutes*60 + seconds |
| Timecode.ConvertedShape | SubRip/SubRip.h:46 | every converted time has the `H..H:MM:SS,mmm` shape and uses only digits, `:` and `,` |
| Timecode.TimecodeLength | SubRip/SubRip.h:46 | the timecode is exactly 12 characters iff the time is below 100 hours |
| Timecode.FieldsCompose | SubRip/SubRip.h:46 | the hour, minute, second and millisecond fields recompose to the time |
| Timecode.ConvertTimeToString | SubRip/SubRip.h:46 | `_convertCMTimeToString:`: the timecode is at least 12 characters; its shape, length and round trip are ConvertedShape, TimecodeLength and ParseConvertedTime |
| Timecode.ParseTimecode | SubRip/SubRip.h:70 | one timecode read at the front of a text takes at least 11 characters and no more than the text; it inverts ConvertTimeToString (ParseConvertedTime) |
| Timecode.ParseConvertedTime | SubRip/SubRip.h:46 | round trip: parsing a converted time, whatever follows it, gives back the time and the timecode's length |
| Lines.SplitLines | SubRip/SubRip.h:70 | at least one line, none holding a newline |
| Lines.SplitJoin | SubRip/SubRip.h:70 | lines without newlines, joined with `\n`, split back into the same lines |
| Lines.JoinSplit | SubRip/SubRip.h:70 | joining the lines of a string gives back the string |
| Lines.Chomp | SubRip/SubRip.h:70 | a line ending in `\r` loses exactly that `\r`; any other line is kept as it is |
| SubRipFormat.ParseTimesLine | SubRip/SubRip.h:70 | an accepted times line is at least 27 characters and starts with the timecode of its start time; ParseTimesLineOf and TimesLineNeedsArrow carry its round trip and its rejections |
| SubRipFormat.ParseDocument | SubRip/SubRip.h:70 | the reference grammar of `_populateFromString:`: the empty text is a document with no cues; ParseRenderedDocument, BlankDocument and the *Fails* lemmas carry its round trip and its failures, and PopulateFromString is proved equal to it |
| SubRipFormat.ParseTimesLineOf | SubRip/SubRip.h:70 | the times line of a cue, bare or followed by a space and tokens, reads back as the cue's two times |
| SubRipFormat.TimesLineNeedsArrow | SubRip/SubRip.h:70 | a line without the ` --> ` separator is never a times line |
| SubRipFormat.ParseRenderedDocument | SubRip/SubRip.h:70 | round trip: a document in block form parses back to exactly its cues, in order |
| SubRipFormat.BlankDocument | SubRip/SubRip.h:70 | a text of spaces, tabs and line breaks only, the empty text included, is a document with no cues |
| SubRipFormat.MalformedTimesLineFailsDocument | SubRip/SubRip.h:70 | a number line followed by a bad times line fails the whole document, whatever good blocks came before |
| SubRipFormat.StrayLineFailsDocument | SubRip/SubRip.h:70 | a line that is neither blank nor a number where a block should start fails the whole document |
| SubRipFormat.TruncatedBlockFailsDocument | SubRip/SubRip.h:70 | a number line at the very end (no times line) fails the whole document |
| SubRipFormat.DocumentThenLines | SubRip/SubRip.h:70 | the block form followed by further lines without line breaks splits back into exactly those lines |
| SubRipFormat.MalformedTimesLineFailsText | SubRip/SubRip.h:70 | the text of good blocks, a number line and a line that is not a times line does not parse |
| SubRipFormat.StrayLineFailsText | SubRip/SubRip.h:70 | the text of good blocks followed by a line that is neither blank nor a number does not parse |
| SubRipFormat.TruncatedBlockFailsText | SubRip/SubRip.h:70 | the text of good blocks ending in a lone number line does not parse |
| SubRip.OccursIsSubstring | SubRip/SubRip.h:53 | the left-to-right search succeeds iff the needle occurs at some position |
| SubRip.SubRipItem.constructor | SubRip/SubRip.h:28-37 | an item holds the given start time, end time and text |
| SubRip.SubRipItem.StartTimeString | SubRip/SubRip.h:39 | the start time as a timecode of the `HH:MM:SS,mmm` shape that parses back to the start time |
| SubRip.SubRipItem.EndTimeString | SubRip/SubRip.h:40 | the end time as a timecode of that shape that parses back to the end time |
| SubRip.SubRipItem.StartTimeInSeconds | SubRip/SubRip.h:50 | the whole seconds of the start time, fraction dropped |
| SubRip.SubRipItem.EndTimeInSeconds | SubRip/SubRip.h:51 | the whole seconds of the end time, fraction dropped |
| SubRip.SubRipItem.ContainsString | SubRip/SubRip.h:53 | true iff the string occurs in the item's text |
| SubRip.TextLengthOfAllText | SubRip/SubRip.h:65 | the summed text lengths equal the length of all cue texts run together |
| SubRip.AllTextAppend | SubRip/SubRip.h:76 | the run-together text of two cue sequences is the concatenation of theirs |
| SubRip.CharacterInSpan | SubRip/SubRip.h:76 | an offset inside a cue's span addresses that cue's character at the relative offset |
| SubRip.SpanOwnerUnique | SubRip/SubRip.h:76 | spans do not overlap: at most one cue owns an offset |
| SubRip.SpanAfter | SubRip/SubRip.h:76 | a later cue's span starts no earlier than an earlier cue's span ends |
| SubRip.SubRip.constructor | SubRip/SubRip.h:60-64 | a new document has no items |
| SubRip.SubRip.InitWithString | SubRip/SubRip.h:69 | nil iff the text is not a SubRip document; otherwise a new document whose cues are the parsed cues |
| SubRip.SubRip.PopulateFromString | SubRip/SubRip.h:70 | true iff the text parses; on success the parsed cues, in order, are appended as new, pairwise distinct items after the items already held, which are kept; on failure the items are unchanged |
| SubRip.SubRip.AppendItems | SubRip/SubRip.h:70 | the cues are appended after the cues already held, as new and pairwise distinct items, the old items kept in place |
| SubRip.SubRip.TotalCharacterCountOfText | SubRip/SubRip.h:78 | the number of characters of all cue texts together |
| SubRip.SubRip.IndexOfSubRipItemWithStartTime | SubRip/SubRip.h:74 | the first item whose closed interval holds the time; none (NSNotFound) iff no item does |
| SubRip.SubRip.IndexOfSubRipItemWithCharacterIndex | SubRip/SubRip.h:76 | an item iff the offset is inside the run-together text, and it is the item whose span holds it |
| SubRip.NewItems | SubRip/SubRip.h:70 | one new item per cue, in order, holding that cue, no item twice |
| SubRip.CuesOfAppend | SubRip/SubRip.h:70 | the cues of two runs of items are the cues of each, in order |
| TagScanner.RunEnd | TagSupport/NSScanner+SRTTags.h:21 | the end of a run of a character class from a position: it stays inside the string, a non-empty run ends on a class character, and the character at the end is outside the class |
| TagScanner.RunEndInClass | TagSupport/NSScanner+SRTTags.h:21 | every character of the run is in the class, so the run is the longest one |
| TagScanner.RunEndStops | TagSupport/NSScanner+SRTTags.h:21 | a run ends at the first character outside its class |
| TagScanner.ValueAt | TagSupport/NSScanner+SRTTags.h:21 | an attribute value, when read, is non-empty text inside the string that does not end in `/` |
| TagScanner.AttributeStepAt | TagSupport/NSScanner+SRTTags.h:21 | one attribute step: a pair ends past its start, a stop leaves the scan at a non-space |
| TagScanner.PairAt | TagSupport/NSScanner+SRTTags.h:21 | a `key=value` pair is read whole or the tag is malformed |
| TagScanner.AttributesFrom | TagSupport/NSScanner+SRTTags.h:21 | the attribute list ends inside the string at a non-space |
| TagScanner.TagClose | TagSupport/NSScanner+SRTTags.h:21 | the tag ends at `>`, preceded by `/` when self-closing |
| TagScanner.TagAt | TagSupport/NSScanner+SRTTags.h:21 | a recognised tag starts with `<`, ends with `>`, has a non-empty name and is open, closed or both |
| TagScanner.TagFlags | TagSupport/NSScanner+SRTTags.h:21 | isOpen iff there is no `/` after `<`; isClosed iff there is a `/` after `<` or before `>` |
| TagScanner.CollectKeys | TagSupport/NSScanner+SRTTags.h:21 | the attribute dictionary holds exactly the keys read |
| TagScanner.CollectUnwritten | TagSupport/NSScanner+SRTTags.h:21 | a key that is not read keeps its earlier entry |
| TagScanner.CollectLast | TagSupport/NSScanner+SRTTags.h:21 | a repeated key maps to its last value |
| TagScanner.WrittenAtSlice | TagSupport/NSScanner+SRTTags.h:21 | the character-wise and slice readings of "text written at a position" agree |
| TagScanner.ReadAttributes | TagSupport/NSScanner+SRTTags.h:21 | written attributes, each after any run of white space and with a quoted or a bare value, read back as their dictionary, stopping at the close of the tag |
| TagScanner.ReadTag | TagSupport/NSScanner+SRTTags.h:21 | round trip: any written tag, with quoted or bare values and any white space between attributes and before the close, reads back as its name, attributes and flags, consuming exactly its text |
| TagScanner.TagAtWritten | TagSupport/NSScanner+SRTTags.h:21 | converse of ReadTag: whatever the recogniser accepts is a written tag (a name, writable attributes, white space, an optional `/` and `>`), read as that tag's name, the dictionary of its attributes and its flags, ending right after it; text not in the tag grammar is never recognised |
| TagScanner.AttributesFromList | TagSupport/NSScanner+SRTTags.h:21 | a read attribute list is the list of attributes found in the text, collected into the dictionary in order, ending after the white space that follows the last one |
| TagScanner.AttributeListWritten | TagSupport/NSScanner+SRTTags.h:21 | the attributes found in the text are writable and written there, one after the other |
| TagScanner.ReadBareAttribute | TagSupport/NSScanner+SRTTags.h:21 | `<name key=value>` written anywhere in a text, with a bare value, reads as an open tag whose dictionary maps the key to the value, consuming exactly its text |
| TagScanner.ReadTagPrefix | TagSupport/NSScanner+SRTTags.h:21 | a written tag at the start of a text reads back whatever follows it |
| TagScanner.BareTagText | TagSupport/NSScanner+SRTTags.h:21 | a tag without attributes is written `<name>` or `</name>` |
| TagScanner.ReadBareTag | TagSupport/NSScanner+SRTTags.h:21 | `<name>` and `</name>` read as open and closing tags with no attributes, whatever follows them |
| TagScanner.StyleTagNames | TagSupport/NSScanner+SRTTags.h:13-16 | the four style tag names are valid tag names |
| TagScanner.StyleTagsRecognised | TagSupport/NSScanner+SRTTags.h:13-21 | `<i>`, `<b>`, `<u>`, `<font>` and their closing tags are recognised with the right flags |
| TagScanner.Scanner.constructor | TagSupport/NSScanner+SRTTags.h:19 | a scanner over a string starts at location 0 |
| TagScanner.Scanner.ScanSRTTag | TagSupport/NSScanner+SRTTags.h:21 | true iff a tag starts at the scan location; then the outputs are that tag and the location is past it; otherwise the location is unchanged |
| TagScanner.ScanValue | TagSupport/NSScanner+SRTTags.h:21 | the scanning step for a value reads what ValueAt describes |
| TagScanner.ScanAttributeStep | TagSupport/NSScanner+SRTTags.h:21 | the scanning step for one attribute step reads what AttributeStepAt describes |
| TagScanner.ScanPair | TagSupport/NSScanner+SRTTags.h:21 | the scanning step for one pair reads what PairAt describes |
| TagScanner.SkipRun | TagSupport/NSScanner+SRTTags.h:21 | the character-skipping loop stops where RunEnd says |
| TagTree.Element.constructor | TagSupport/JXSRTElement.h:17-31 | a new element is detached, named, and has no text, attributes or children |
| TagTree.Element.AttributeForKey | TagSupport/JXSRTElement.h:38 | some value iff the key is in the attributes, and then the stored value |
| TagTree.Element.Path | TagSupport/JXSRTElement.h:36 | ends with the element's tag name; a root's path is its tag name |
| TagTree.Element.ParentWithTagName | TagSupport/JXSRTElement.h:43 | a non-null answer is a node of the set other than the receiver, carries the name and lies in the receiver's ancestry past the receiver itself |
| TagTree.Element.AddChild | TagSupport/JXSRTElement.h:40 | the child is appended and its parent is the receiver; acyclicity is kept when the child is not the receiver or an ancestor of it |
| TagTree.Element.RemoveChild | TagSupport/JXSRTElement.h:41 | every occurrence of the child is removed, the rest kept in order; the child is detached; acyclicity is kept |
| TagTree.Element.Copy | TagSupport/JXSRTElement.h:17 | a new element with the same tag name, text and attributes, detached and without children |
| TagTree.Ancestry | TagSupport/JXSRTElement.h:19 | the parent chain of an acyclic element: starts at it, follows `parent` to a root, no element twice |
| TagTree.ChainUnique | TagSupport/JXSRTElement.h:19 | following `parent` is deterministic: two chains from one element are equal |
| TagTree.ChainAcyclic | TagSupport/JXSRTElement.h:19 | an element with a chain to a root is acyclic (with Ancestry: acyclic iff such a chain exists) |
| TagTree.RelinkedChain | TagSupport/JXSRTElement.h:40-41 | after one parent link changes, the walk up from every element is still a chain to a root inside the node set |
| TagTree.RelinkChain | TagSupport/JXSRTElement.h:40-41 | relinking one element keeps every element acyclic |
| TagTree.WithoutMembers | TagSupport/JXSRTElement.h:41 | after removal exactly the other children remain |
| TagTree.WithoutAbsent | TagSupport/JXSRTElement.h:41 | removing an element that is not a child changes nothing |
| TagTree.WithoutAppend | TagSupport/JXSRTElement.h:41 | removal distributes over concatenation, so order is kept |
| TagTree.WithoutSingle | TagSupport/JXSRTElement.h:41 | removing a child that occurs once closes the gap and keeps the others in order |
| TagTree.JoinPathSnoc | TagSupport/JXSRTElement.h:36 | adding a name at the end of a path adds `/` and the name |
| TagTree.PathJoinsNames | TagSupport/JXSRTElement.h:36 | a path is the tag names of the chain, root first, joined by `/` |
| TagTree.PathDependsOnNames | TagSupport/JXSRTElement.h:36 | two elements whose chains carry the same names have the same path |
| TagTree.ParentWithTagNameNone | TagSupport/JXSRTElement.h:43 | null iff no proper ancestor carries the name |
| TagTree.ParentWithTagNameNearest | TagSupport/JXSRTElement.h:43 | a non-null answer is the nearest proper ancestor carrying the name |

## Left out

- `initWithFile:` and `initWithData:`, with their file reading and text decoding, are left out. The model starts from the text (`initWithString:`).
- `NSCoding` (`encodeWithCoder:`, `initWithCoder:`) and `description` are left out. They are archiving and debug output.
- `uniqueID` is left out. It is an opaque identifier made on first access, and the model has no source of unique strings.
- `srtLogPosition` is left out. It is diagnostic output only.
- `CMTime` is replaced by whole milliseconds. Time scales and rational values are not modelled, and a lookup time is given in milliseconds.
- Only the `HH:MM:SS,mmm` timecode form is modelled. A compact `HH:MM:SS` form and a "next item at or after a time" query are not declared in the headers.
- The `JXSRTElement` style and rendering members are left out: the font descriptor, paragraph style, attachment, colour, underline style, scale, size, `attributedString`, `attributesDictionary` and `isContainedInBlockElement`. They are CoreText and floating-point values whose types are not part of this model.
- The attributed-string conversion (`NSMutableAttributedString+SRTString.h`) is not part of this model, and neither is the tag-to-tree converter that would drive the scanner and the tree.
- TagScanner.Scanner.ScanSRTTag: the tag name is reported as written, without case folding, and the grammar is a modelling choice. The name is a run of letters, digits, `_` and `-`; attributes are `key=value` or `key="value"`, each after a run of white space (space, tab, `\r`, `\n`); a bare value is a run of characters other than white space, `"`, `<`, `>`, `/` and `=`; an optional `/` may come before `>`. The header declares only the signature.
- SubRip.SubRip.PopulateFromString: a block may have zero text lines, and each line loses at most one trailing `\r`. Items are created only after the whole text has been read, so a failed parse appends nothing to `subtitleItems`.
- SubRip.SubRip.PopulateFromString: the block grammar is a modelling choice where the header is silent. Minutes and seconds are exactly two digits below 60, hours one digit or more, milliseconds exactly three digits. The separator between the two times is exactly ` --> `, and after the end time only the end of the line or a space may follow. A number line is digits only. A blank line holds only spaces and tabs.
- SubRip.SubRip.TotalCharacterCountOfText: characters are counted as elements of the string (Unicode scalar values), not as the UTF-16 code units that `NSString` counts, so text outside the Basic Multilingual Plane counts once instead of twice.
- SubRip.SubRip.IndexOfSubRipItemWithCharacterIndex: offsets count Unicode scalar values, not the UTF-16 code units of `NSString`, so offsets past a character outside the Basic Multilingual Plane differ from the library's.
- SubRip.SubRip.IndexOfSubRipItemWithStartTime: `NSNotFound` is modelled as `None`, and so is it in `IndexOfSubRipItemWithCharacterIndex`.
- TagScanner.StyleTagNames: the values `"i"`, `"b"`, `"u"` and `"font"` of the four tag-name constants are a modelling choice. The header declares the constants (`extern NSString * const`) but not their values.
- SubRip.SubRip.InitWithString: an empty or blank-only text is a document with no items (BlankDocument), so it gives a non-null, empty document rather than nil. The header does not say which.
- SubRip.SubRipItem.ContainsString: the empty string counts as contained. There is no case or locale handling.
- TagTree.Element.RemoveChild: the child is detached by setting its parent to null, even when it was not a child of the receiver.
- TagTree.Element.Copy: the copy is detached and has no children. The parent link and the children are not copied.
- TagTree.Element.AddChild: the child is not removed from the children of a previous parent.
