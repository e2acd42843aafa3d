# A verified model of procenv's output engine

procenv describes the process it runs in by a stream of calls: open a section, open a container, write an entry, close
again. src/output.c turns that stream into text, breadcrumbs, JSON or XML. This project models that engine and what lies
under it, and proves what the engine is for: whatever tree the calls describe, the document is that tree, laid out as a
recursive pretty-printer would lay it out, and a JSON or XML reader gets the tree back.

Check everything with `dafny verify dfyconfig.toml`.

## How it is organised

| modules | subject |
|---|---|
| `Prelude`, `Numerals` | C strings, runs of one character, numerals |
| `Document` | document trees and the calls that describe them |
| `Encoding`, `Decoding`, `EncodeBuffers` | substitution and escaping as functions; readers written from RFC 8259 and XML 1.0; the count-then-fill loops on buffers |
| `Layout`, `Emission` | the state machine as a function from state and call to state; header and footer |
| `Render`, `Nesting` | the machine prints the tree; the indent invariant |
| `Crumbs`, `Outlines`, `FirmTexts`, `StrayLines` | breadcrumbs and text, line by line; texts the clean-up cannot mistake for blank lines; what an indent of one character does |
| `JsonReader`, `JsonRoundTrip`, `JsonDocuments` | a JSON reader, and what it gets from a document |
| `XmlReader`, `XmlRoundTrip`, `XmlDocuments` | the same for XML |
| `Cleaning`, `TextLines`, `CleanedLines`, `ShownLines` | chomp and compress as functions; what they make of lines, down to the final newline; when they leave exactly the lines of text |
| `PrintedLines`, `Tidiness`, `JsonTidiness`, `XmlTidiness` | which JSON and XML documents they leave alone |
| `NewlineIndents`, `TornJson`, `ReadingEnds`, `CleanedJson`, `CleanedXml` | what a reader gets from the documents they do not leave alone |
| `Pstrings`, `Appending` | the buffers: appends, chomp and compress in place |
| `SortedLists`, `PrList`, `Namespaces` | sorted insertion as a function and on the ring; sorting and draining the namespaces |
| `Output` | `Printer`: the machine as the program runs it, on a real buffer and a real ring |
| `Program`, `Samples` | the life of a document in `main`: calls, chomp, compress; ordinary documents in every format |
| `Affinity` | CPU and NUMA range lists |
| `Interfaces`, `Network` | the MAC cache of `show_network`: what it shows, and the linked nodes |
| `Parents`, `Ancestry`, `AncestryReader` | the FreeBSD ancestor walk, its text, and the text read back |

Each imperative method is proved against a function of a value module, and the properties are proved of that function. A
run that the source ends by `die` or a failed `assert`, or that leaves a buffer, is `None` in a function and
`ok == false` in a method, so the theorems say exactly when that happens.

A character is a Unicode scalar value (`wchar_t` on the platforms procenv runs on). `printable` stands for `iswprint`:
any predicate that holds on 0x20 to 0x7e and fails on the other ASCII characters, that is, on the control characters and
on DEL; beyond ASCII it is arbitrary.

## What turned out to hold only in part

- A breadcrumb document that starts with an entry outside any group aborts on `assert (crumb_list)`; every other one
  without an empty name is written (`Crumbs.EmitCrumbs` is an if-and-only-if).
- Chomp and compress leave a JSON document alone exactly when the indent character is not `}`, no line ends in it twice
  (it takes a quote, a brace or a closing bracket for that, in places read off the tree), and it is not a newline that
  indents something (`JsonTidiness.JsonIsTidy`). An XML document is left alone exactly when it is not empty, the indent
  character is not `>` and is not a newline that indents something (`XmlTidiness.XmlIsTidy`). A space never hurts.
- `encode_string` stays inside its buffer exactly when the escapes are at most one digit too long in all, and then only
  if the string has a second character (`EncodeBuffers.EncodeString` with `Fits`). Up to 0xFF in XML and 0xFFFF in JSON
  everything fits (`EncodeBuffers.NarrowFits`).
- A JSON document reads back exactly when its non-printable characters are at most 0xFFFF and its indent is white space
  (`JsonDocuments.JsonReadsBackIff`). Each backslash comes back doubled, because the table writes four for one.
- An XML document reads back, whatever its texts hold, exactly when its indent is white space
  (`XmlDocuments.XmlReadsBackIff`); the setting accepts any character.
- What is shown of a JSON document reads back exactly when, moreover, the indent character is not `}` and compress, if
  it is applied, finds no line that ends in it twice (`CleanedJson.CleanedJsonReads`, `Program.ShownJson`). With a quote
  for an indent character, no indent and an empty value, the printed document reads back and the compressed one does not
  (`CleanedJson.TornExample`). What is shown of an XML document reads back exactly when, moreover, the indent character
  is not `>` (`CleanedXml.CleanedXmlReads`, `Program.ShownXml`), even where the two differ: an empty document, and
  newlines for an indent.
- Compress promises in its comment to remove lines composed entirely of white space. What it does to lines is
  `TextLines.Fold`: a line that ends in two or more indent characters loses them and its newline, so a text that does is
  joined with the next line (`TextLines.JoinedLines`), and a line of a single indent character stays
  (`TextLines.LoneIndentStays`). It drops the blank lines and nothing else exactly when no text ends in two indent
  characters (`TextLines.SqueezeLines`, `CleanedLines.CleanLines`), and leaves exactly the lines of text when, moreover, no
  line of one indent character stands before one (`ShownLines.CleanTexts`). All characters but newline and indent survive
  in any case (`Cleaning.CleanKeepsSolid`).
- The terminator that compress writes late cuts the final newline exactly when something is dropped and the counters miss
  nothing of it (`Cleaning.CutIff`): no line that ends in two indent characters is followed by an empty line or by one
  that starts with the indent character, and no line after it keeps an indent character (`CleanedLines.CleanedIs` with
  `Cuts`). In text output with ordinary labels that is exactly when a top-level group with members has something after it
  and no group at an indent of two or more does (`FirmTexts.FirmCut`): with the default settings, two sections with an
  entry each are shown without a final newline (`Samples.NewlineLost`).
- With an indent of one, text output shows a line of one indent character after a group at depth one that has members
  and a text after it (`StrayLines.StrayLine`); `Program.ShownText` is exact for every indent.
- Chomp walks off the front of a buffer of two or more characters exactly when all of them are newlines and indent
  (`Pstrings.PString.Chomp`), and the compress loop steps past the terminator exactly when the text ends in a blank line
  (`Pstrings.PString.Compress`); after chomp it never does (`Cleaning.ChompedIsSafe`).
- The ancestor loop stops exactly when no process is its own ancestor (`Parents.ScansAreTheWalk`).

## Model

| member | source | states |
|---|---|---|
| `Encoding.TwoPassesAreOne` | src/output.c:1711-2021 | for every string, substitution followed by escaping of non-printables equals one per-character encoding |
| `Encoding.XmlSpelling` | src/output.c:114-126 | how XML spells each character: five by an entity, other printables as they are, the rest by two or more hexadecimal digits |
| `Encoding.JsonSpelling` | src/output.c:127-145 | how JSON spells each character: a quote and a backslash by the table, other printables as they are, the rest by four or more digits |
| `Encoding.HexSpelling` | src/output.c:1963-1975 | a newline and an escape character in the two hexadecimal conversions |
| `Encoding.PlainIsKept` | src/output.c:1874-2021 | printable text without special characters is written unchanged |
| `Numerals.NumeralShortest` | src/output.c:2004-2009 | the digits of a number have no zero in front and are in lower case |
| `Numerals.ShortestIsNumeral` | src/platform/platform-generic.c:540-548 | every such digit string is the numeral of its value, so a number has one numeral |
| `Encoding.EncodeOneLine` | src/output.c:1874-2021 | encoded text holds no newline and no terminator, whatever the original held |
| `Decoding.JsonStringRead` | src/output.c:1874-2021 | what an RFC 8259 reader gets from any encoded string, including the escapes with too many digits, and that it stops exactly at the closing quote |
| `Decoding.JsonStringRoundTrip` | src/output.c:114-145 | the string comes back with each backslash doubled if and only if every non-printable character is at most 0xFFFF |
| `Decoding.EncodedQuoteFree` | src/output.c:127-145 | no encoded JSON string holds an unescaped quote or a dangling backslash |
| `Decoding.XmlTextRoundTrip` | src/output.c:114-126 | every string comes back unchanged from XML text and from an attribute value |
| `EncodeBuffers.CountExtra` | src/output.c:1743-1760 | the counting pass finds exactly how much longer the translated text is |
| `EncodeBuffers.TranslateWith` | src/output.c:1743-1847 | the filling pass writes exactly the translated text and ends with the length it allocated, for any usable table |
| `EncodeBuffers.OutputTranslate` | src/output.c:1711-1850 | the same for the JSON and XML tables: the result is the substituted text, its length the allocated length |
| `EncodeBuffers.EscapeString` | src/output.c:1920-2021 | the second count-then-fill pass stays inside its buffer if and only if the string fits, and then yields the escaped text |
| `EncodeBuffers.EncodeString` | src/output.c:1874-2021 | both passes on a real buffer equal the encoding function, exactly for the strings that fit |
| `EncodeBuffers.TranslateFits` | src/output.c:1890-2014 | whether the escapes fit can be told from the original string: substitution does not change it |
| `EncodeBuffers.NarrowFits` | src/output.c:1963-2014 | non-printables up to 0xFF (XML) or 0xFFFF (JSON) always fit |
| `EncodeBuffers.WideDoesNotFit` | src/output.c:1963-2014 | concrete strings just past the limit that do not fit |
| `EncodeBuffers.LongEscapeFits` | src/output.c:1963-2014 | a string that fits although one escape has a digit too many |
| `Cleaning.ChompedSettles` | src/pstring.c:191-218 | after chomp the text ends in one newline that follows a kept character, and no kept character is lost |
| `Cleaning.ChompedIs` | src/pstring.c:191-218 | for every text: two or more trailing newlines and indent characters become one newline, fewer stay |
| `Cleaning.ChompedIsSafe` | src/pstring.c:191-218 | every chomped text is safe for the compaction loop, which would otherwise step past the terminator |
| `Cleaning.SqueezedIsNormal` | src/pstring.c:249-301 | the loop's result never has two newlines in a row, nor two indent characters before a newline |
| `Cleaning.SqueezedTwice` | src/pstring.c:249-301 | running the loop on its own result changes nothing |
| `Cleaning.TallyBound` | src/pstring.c:249-318 | `blanks + count` never exceeds the characters actually dropped |
| `Cleaning.CleanKeepsSolid` | src/pstring.c:191-318 | every character other than newline and indent survives chomp and compress in order, and at most the final newline is cut |
| `Cleaning.CutIff` | src/pstring.c:249-318 | every text loses its last character if and only if something is left, it was not in normal form and the counters miss nothing: every blank line ends in one newline and is not followed by indent, and no indent character is copied after one; after chomp that character is the final newline |
| `Cleaning.CleanIsIdentity` | src/pstring.c:191-318 | a text in normal form that ends in one newline is left alone |
| `TextLines.SqueezeIsFold` | src/pstring.c:249-301 | for every text that ends in a newline and every indent character, exactly what the loop makes of its lines |
| `TextLines.SqueezeOpen` | src/pstring.c:249-301 | the same for texts that do not end in a newline |
| `TextLines.SqueezeLines` | src/pstring.c:249-301 | the loop drops exactly the empty lines and those of two or more indent characters, if and only if no text ends in two indent characters |
| `CleanedLines.CountsLines` | src/pstring.c:249-318 | the same read off the lines: none that ends in two indent characters is followed by an empty line or one that starts with indent, and none after it keeps an indent character |
| `CleanedLines.CleanedIs` | src/pstring.c:191-318 | what chomp and compress leave of any lines that are not all blank, to the last character; it ends in a newline if and only if none is cut |
| `CleanedLines.CleanLines` | src/pstring.c:191-318 | chomp and compress drop the blank lines and nothing else, and the final newline exactly where it is cut, if and only if no line that chomp leaves is a text ending in two indent characters |
| `TextLines.JoinedLines` | src/pstring.c:262-284 | an input where a text is joined with the next line |
| `TextLines.LoneIndentStays` | src/pstring.c:269-290 | an input where a line of one space stays |
| `ShownLines.CleanTexts` | src/pstring.c:191-318 | the clean-up leaves exactly the lines that hold something, but for what ends the last, if and only if the first line is not empty and, before the last text, no text ends in two indent characters and no line is a single one; the result ends in a newline if and only if none is cut |
| `ShownLines.CutsIff` | src/pstring.c:249-318 | if every line that ends in two indent characters is followed by one that is empty or starts with indent, the final newline is cut if and only if an empty line stands before a text and no such line does |
| `Cleaning.OverrunsIffEndsBlank` | src/pstring.c:249-295 | the loop steps past the terminator if and only if the text ends in a blank line |
| `Pstrings.PString.Create` | src/pstring.c:122-146 | a counted string: the length includes the terminator |
| `Pstrings.PString.Formatted` | src/string-util.c:309-394 | formatting into a null handle gives a counted string with the formatted text |
| `Pstrings.PString.Wappendn` | src/string-util.c:106-155 | the document grows by exactly the text, its length excluding the terminator, its size in step |
| `Pstrings.PString.Pappend` | src/string-util.c:422-465 | a counted string appended to a non-empty document adds its text once, despite the other length convention |
| `Pstrings.PString.Chomp` | src/pstring.c:191-218 | in place: the text becomes `Chomped` of it, or the walk leaves the front of the buffer, exactly when nothing in two or more characters is kept |
| `Pstrings.PString.Compress` | src/pstring.c:232-318 | in place: the text read up to the terminator becomes `Compressed` of it, or the loop steps past the terminator, exactly when the text ends in a blank line |
| `Pstrings.Squeeze` | src/pstring.c:249-301 | the two-pointer loop never overwrites what it has not read, and computes `Squeezed` and `Tally` unless it steps past the terminator |
| `Pstrings.NextKept` | src/pstring.c:249-292 | the reading half of a round, with its goto and backtracking, skips exactly the dropped characters, or finds the terminator where it wants a character |
| `Appending.RunAppends` | src/string-util.c:106-465 | over every run of appends of all kinds the document holds the concatenation, with terminator and size right |
| `SortedLists.InsertForwardSorted` | src/pr_list.c:232-295 | for any strict weak order, insertion from the front keeps the list ascending and puts the entry after its equals |
| `SortedLists.InsertBackwardSorted` | src/pr_list.c:232-295 | insertion from the back keeps it descending and puts the entry before its equals |
| `SortedLists.AllMirror` | src/pr_list.c:232-295 | the same insertions through the two routines give mirror-image lists |
| `SortedLists.AllForwardSorts` | src/pr_list.c:232-295 | a run of insertions yields the inserted entries, each once, in ascending order |
| `PrList.Append` | src/pr_list.c:58-71 | the ring stays linked both ways and gains the node right after the given one |
| `PrList.Prepend` | src/pr_list.c:137-150 | the same right before it; before the sentinel is last |
| `PrList.Remove` | src/pr_list.c:306-318 | the ring closes over the gap and the node becomes a ring of its own |
| `PrList.PrependSorted` | src/pr_list.c:232-295 | on the heap, the ring holds the values of the forward insertion and is linked both ways |
| `PrList.AppendSorted` | src/pr_list.c:232-295 | the same backwards |
| `Namespaces.CmpStrIsStrictWeak` | src/pr_list.c:206-227 | the comparison is negative exactly for null before a string and for dictionary order, and is a strict weak order |
| `Namespaces.StrcmpIsOrder` | src/pr_list.c:206-227 | a negative comparison means that one string is a proper beginning of the other, or has the smaller character where they first differ |
| `Namespaces.ReadNamespaces` | src/platform/linux/platform.c:637-663 | the loop stops exactly when an entry other than "." and ".." has an empty link; else, whatever order the directory yields, the ring holds one node for each such entry whose link can be read, with name, space and link, in dictionary order |
| `Namespaces.Drain` | src/platform/linux/platform.c:667-693 | every node is visited once in ring order while being unlinked; the sentinel ends alone |
| `Namespaces.ShowNamespaces` | src/platform/linux/platform.c:637-693 | nothing is shown exactly when an entry other than "." and ".." has an empty link; else each such entry whose link can be read is shown once, in the dictionary order of name, space and link, as an object with one entry: that text cut at its first space, which is name and link for all exactly when no name holds a space |
| `Namespaces.SplitIsJoinUndone` | src/platform/linux/platform.c:656-681 | a stored line is always split at its first space, and gives back name and link if and only if the name holds no space |
| `Render.MachineIsSound` | src/output.c:1009-1621 | the three transition tables place separator, newline and indent as siblings, first children and closes need, for every pair of elements a tree can produce |
| `Render.RunNode` | src/output.c:261-669 | from any state a node may follow, its calls write exactly the recursive pretty-printing of the node at the next indent |
| `Render.RunInside` | src/output.c:261-669 | the children and the close marker: the close stands at the indent of its open, or on the same line for an empty JSON group |
| `Emission.RunFlattened` | src/output.c:261-303 | objects are invisible outside JSON: a run equals the run of the tree with its objects flattened away |
| `Emission.EmitPrints` | src/output.c:217-1621 | in text, JSON and XML, header, calls and footer succeed if and only if no name is empty and every name and value fits the encoder's buffer, and then the document is the pretty-printed tree and the indent is back at 0 |
| `Emission.WritableIff` | src/output.c:360-669 | in every format the calls of a tree can all be made if and only if its texts are C strings, no name is empty, and every name and every value (an empty one too) fits |
| `JsonTidiness.JsonLines` | src/output.c:1186-1402 | a JSON document is its nodes on lines of their own, at their indents, with commas between siblings, empty groups on one line |
| `XmlTidiness.XmlDocumentIs` | src/output.c:1404-1621 | an XML document that is not empty is the declaration, the root's start tag, its nodes on lines of their own at their indents, and the end tag |
| `Nesting.StepKeepsPlace` | src/output.c:844-1621 | one allowed call from a state in the invariant: no unexpected pair, no negative indent, and the invariant again |
| `Nesting.IndentInvariant` | src/output.c:844-943 | after the header and every prefix of every well-nested run, the machine has aborted exactly when some name so far was empty or some text did not fit, and else the indent is the amount times (open groups, less one after an open, plus one in XML) |
| `Nesting.DocumentsNest` | src/output.c:261-669 | every document tree gives a well-nested run that leaves open only what the header opened |
| `Outlines.TextIsOutline` | src/output.c:1036-1184 | for every document that is not empty, the text format is an outline: one line per entry and group head, indented by depth, and a line of indent at the end of each group that has members |
| `Outlines.CleanOutline` | src/pstring.c:191-318 | for every text document that is not empty and every setting, the clean-up leaves exactly the lines of the labels that hold something, if and only if these come through, a condition read off the tree; the result ends in a newline if and only if the outline is not cut |
| `FirmTexts.FirmCut` | src/pstring.c:249-318 | for firm labels the outline is cut if and only if a group at no indent (any group, if newlines are the indent) has members and a text after it and no group at an indent of two or more does |
| `StrayLines.StrayLine` | src/pstring.c:269-290 | with an indent of one, a section that holds a section and then an entry shows a line of one indent character, although every label is firm |
| `StrayLines.StrayExample` | src/pstring.c:269-290 | one such document with the default separator and indent character, and the text shown for it |
| `Emission.WritableIsNamed` | src/output.c:360-374 | outside JSON and XML a document can be written exactly when no name is empty |
| `Crumbs.EmitCrumbs` | src/output.c:621-638 | in crumb format the run aborts exactly when a name is empty or the document starts with an entry; else each entry is one line prefixed by the names on its path, in order, and no crumb is left |
| `Layout.PrefixIsPath` | src/output.c:621-631 | what the loop over the crumbs writes is every name from the outermost inwards, each followed by the separator, and nothing else |
| `JsonDocuments.PrintedJsonIsSeen` | src/output.c:1186-1402 | for every document, a reader of RFC 8259 sees the document's tree, with what it sees of each string in it, or fails if it cannot read one |
| `JsonDocuments.PrintedJsonReadsBack` | src/output.c:217-669 | with a white-space indent the printed JSON reads back as the tree if and only if every non-printable character is at most 0xFFFF |
| `JsonDocuments.JsonReadsBackIff` | src/output.c:873-905 | the exact condition over every configuration: readable texts, and a white-space indent unless the document is empty |
| `XmlDocuments.PrintedXmlReadsBack` | src/output.c:1404-1621 | with a white-space indent the printed XML has matching tags and reads back as the tree without its objects |
| `XmlDocuments.XmlReadsBackIff` | src/output.c:873-943 | the exact condition over every configuration |
| `XmlDocuments.ModeIs` | src/output.c:929-935 | the header's mode is "privileged" for a user with privileges and "non-privileged" for one without |
| `JsonTidiness.JsonIsTidy` | src/procenv.c:4240-4271 | for every JSON document and every indent setting, chomp and compress leave it alone if and only if it stays: a condition on the indent character, the amount and the tree |
| `JsonTidiness.SomeAreChanged` | src/procenv.c:4240-4271 | for each of the other five characters a document that the clean-up changes |
| `JsonTidiness.OrdinaryIndentStays` | src/procenv.c:4240-4271 | every indent character but five, a space for one, leaves every JSON document alone |
| `XmlTidiness.XmlIsTidy` | src/procenv.c:4240-4271 | for every XML document and every indent setting, they leave it alone if and only if it is not empty, the indent character is not `>`, and it is not a newline that indents something |
| `NewlineIndents.NewlinesGo` | src/pstring.c:191-318 | with newlines for an indent the clean-up leaves exactly the lines that are not empty |
| `NewlineIndents.NodeFilled` | src/output.c:873-905 | those are the lines of the same tree printed without an indent, in JSON and in XML |
| `TornJson.TornMembers` | src/pstring.c:249-318 | with a quote for an indent character, if compress takes the quotes of any value in a list of members, a reader gets nothing of the list, whatever its other texts hold and whatever follows |
| `ReadingEnds.ObjectInk` | src/output.c:1186-1402 | a text that reads as a JSON object ends in a closing brace and white space |
| `ReadingEnds.DocumentInk` | src/output.c:1404-1621 | a text that reads as an XML document ends in the end of a tag and white space |
| `CleanedJson.CleanedJsonReads` | src/procenv.c:4240-4271 | for every document and setting, chomped JSON reads back if and only if the texts are readable, the indent is white space (or there is nothing to indent) and not the closing brace; compressed JSON if and only if, moreover, no line ends in two indent characters |
| `CleanedJson.TornExample` | src/pstring.c:249-318 | an entry without a value under a quote and no indent: it reads back chomped, and not compressed |
| `CleanedXml.CleanedXmlReads` | src/procenv.c:4240-4271 | for every document and setting, chomped XML and compressed XML read back if and only if the indent is white space (or there is nothing to indent) and not the end of a tag |
| `Output.FormatTextElement` | src/output.c:1036-1184 | the text switch computes the table `TextLead`, `None` where it is not reached |
| `Output.FormatJsonElement` | src/output.c:1186-1402 | the JSON switch computes `JsonLead` |
| `Output.FormatXmlElement` | src/output.c:1404-1621 | the XML switch computes `XmlLead` |
| `Output.Printer.AddIndent` | src/output.c:872-905 | both branches append the indent character as often as the indent says |
| `Output.Printer.DecIndent` | src/output.c:857-865 | the indent falls by the amount, or the assertion fails |
| `Output.Printer.ChangeElement` | src/output.c:997-1034 | the buffer, elements and indent change as `Layout.ChangeElement` says |
| `Output.Printer.ObjectOpen` | src/output.c:261-303 | the call refines `Apply`: nothing outside JSON |
| `Output.Printer.ObjectClose` | src/output.c:316-358 | the same for the close |
| `Output.Printer.SectionOpen` | src/output.c:382-418 | encoding on buffers, element change and the text of every format refine `Apply`; a crumb is pushed on the ring |
| `Output.Printer.SectionClose` | src/output.c:420-447 | refines `Apply`; a crumb is popped, never the sentinel |
| `Output.Printer.ContainerOpen` | src/output.c:460-495 | as for sections |
| `Output.Printer.ContainerClose` | src/output.c:503-530 | as for sections |
| `Output.Printer.Entry` | src/output.c:584-669 | refines `Apply`, crumbs first in crumb format |
| `Output.Printer.AddBreadcrumb` | src/output.c:945-956 | the ring of names is a stack: the name goes on top, the sentinel is made on demand |
| `Output.Printer.RemoveBreadcrumb` | src/output.c:958-970 | the top name goes; it fails exactly when only the sentinel is left |
| `Output.WriteRing` | src/output.c:621-631 | the loop over the ring writes every name on the path, outermost first, each followed by the separator |
| `Output.Printer.DoAll` | src/output.c:261-669 | any run of calls on the heap refines the run of the function, aborting exactly when it does |
| `Output.Printer.MasterHeader` | src/output.c:910-943 | refines `Emission.MasterHeader` |
| `Output.Printer.MasterFooter` | src/output.c:217-247 | refines `Emission.MasterFooter` |
| `Program.CleanUp` | src/procenv.c:4240-4271 | on the real buffer: chomp, then compress unless the run was for one option and the format is an encoded one |
| `Program.Show` | src/procenv.c:4240-4271 | the whole program on real buffers and rings shows `Shown` |
| `Program.ShownJson` | src/procenv.c:4240-4271 | for every document and setting: something is shown exactly when no name is empty and every text fits the encoder's buffer; it is the printed tree exactly when the indent character is not `}` and, where the path compresses, the document stays; and what is shown reads back as the document exactly when the texts are readable, the indent is white space (or there is nothing to indent) and not `}`, and, where the path compresses, no line ends in two indent characters |
| `Program.ShownButUnreadable` | src/output.c:1945-2014 | a document that can be encoded and is shown, and does not read back |
| `Program.ShownXml` | src/procenv.c:4240-4271 | the same for XML, with `>` for the brace, for every text; what is shown reads back on both paths under the same condition |
| `Program.NarrowIsShown` | src/output.c:1874-2021 | JSON and XML documents without an empty name whose non-printables are at most 0xFF in XML and 0xFFFF in JSON are always shown |
| `Program.ShownText` | src/procenv.c:4240-4271 | for every text document and every setting: what is shown are exactly the lines of the labels (one label per entry and group head, in document order, indented by depth) that hold something, but for what ends the last, if and only if these come through; it ends in a newline if and only if the outline is not cut; an empty document is shown as a newline |
| `Program.ShownFirmText` | src/procenv.c:4240-4271 | if every label is a firm line, what is shown is the text of the labels if and only if no group at an indent of one has members and a text after it (with another indent amount always), without its final newline exactly when a group at no indent (any group, if newlines are the indent) has members and a text after it and no group at an indent of two or more does |
| `Program.ShownCrumbs` | src/procenv.c:4240-4271 | for every breadcrumb document and every setting, the same with one text per entry, prefixed by the names on its path; it ends in a newline if and only if the lines are not cut |
| `Program.ShownFirmCrumbs` | src/procenv.c:4240-4271 | if every entry is a firm line, what is shown is exactly those lines, the final newline included |
| `Samples.NewlineLost` | src/procenv.c:4240-4271 | with the default settings, two sections with an entry each are shown without the final newline |
| `Samples.JsonSample` | src/output.c:584-669 | the JSON shown for a section with one entry whose value may be empty, line by line |
| `Samples.XmlSample` | src/output.c:910-943 | the XML shown for it, declaration and root included |
| `Samples.CrumbSample` | src/output.c:621-638 | the line shown for it in crumb format |
| `Program.ShownKeepsSolid` | src/procenv.c:4240-4271 | in text and crumb format what is shown has every character of the document other than newline and indent, in order |
| `Affinity.CpuList` | src/platform/platform-generic.c:527-562 | the loop with its counters builds the text of the ranges, null for none |
| `Affinity.AffinityEntry` | src/platform/platform-generic.c:567 | the entry's value is that text, or "-1" |
| `Affinity.ShownReadsBack` | src/platform/platform-generic.c:527-567 | the list reads back as ranges that are ascending, disjoint, never adjacent, maximal and cover exactly the set; "-1" exactly for the empty set |
| `Affinity.OnlyShownReads` | src/platform/platform-generic.c:540-567 | no other text reads as these ranges: no zeros in front, no dash in a range of one |
| `Affinity.ApartIsUnique` | src/platform/platform-generic.c:527-562 | only one list of such ranges covers a given set, so the printed one is determined by it |
| `Interfaces.AlwaysKept` | src/procenv.c:4495-4579 | every round of every run keeps: lines in order, cache most recent first, each link-level entry cached or used by one later line of its name, the most recent one taken |
| `Interfaces.LinesInOrder` | src/procenv.c:4495-4594 | first every entry with an address, once and in order, then link-level entries with their own MAC, most recent first |
| `Interfaces.LinkUsedOnce` | src/procenv.c:4550-4594 | each link-level entry is used by exactly one line: a later one of the same name, or its own at the end |
| `Interfaces.NoNameLost` | src/procenv.c:4495-4594 | every interface with an address of any kind is shown under its name |
| `Network.Unlink` | src/procenv.c:4559-4567 | the list closes over the node, which is released |
| `Network.TakeMac` | src/procenv.c:4550-4571 | the search, unlink and release take exactly the most recent node of that name, and give the MAC of its link-level entry |
| `Network.Drain` | src/procenv.c:4584-4596 | the last loop shows every node that is left, with its entry's own MAC, and releases it; links are read only of nodes not yet released |
| `Network.ShowNetwork` | src/procenv.c:4491-4597 | on the heap: for each line of `Interfaces.Lines` its interface is shown, with the MAC of the link-level entry of the same name that the line used, or none; and every node allocated has been released, none twice |
| `Network.OneInterface` | src/procenv.c:4526-4574 | a link-level entry and an address of one name: one line, with the MAC |
| `Parents.ScanIsPath` | src/platform/freebsd/platform.c:425-439 | for unique process IDs, however many generations one scan finds, they are the next ones of the parent chain |
| `Parents.EndsIffAcyclic` | src/platform/freebsd/platform.c:419-451 | a parent chain leaves the table if and only if no process is its own ancestor, within as many lookups as there are processes |
| `Parents.ScansAreTheWalk` | src/platform/freebsd/platform.c:419-451 | for any order of the table the loop stops if and only if the chain is acyclic, and then has found what one lookup at a time finds |
| `Ancestry.FindAncestors` | src/platform/freebsd/platform.c:419-451 | the nested loops terminate and build the text of that walk |
| `Ancestry.AncestorsText` | src/platform/freebsd/platform.c:428-431 | that text is the ancestors' items with a separator exactly between them |
| `AncestryReader.AncestryIsWritten` | src/platform/freebsd/platform.c:428-431 | whatever the names hold, the text is the process ID and name of the process and of each ancestor in order, as "%d ('%s')" with a comma and a space between them |
| `AncestryReader.AncestryReadsBack` | src/platform/freebsd/platform.c:419-451 | for names without a quote, the text reads back as those process IDs and names in order |
| `AncestryReader.AncestrySample` | src/platform/freebsd/platform.c:428-431 | the text for a shell started by init |

## Left out

- I/O, terminal, syslog, files and re-exec: the model ends with the text that is shown.
- System queries (`sysconf`, `readdir`, `readlink`, `getifaddrs`, kvm): their results are arbitrary inputs.
- Multi-byte conversion and the printf family: texts are taken as already formatted sequences of characters; the growth
  loop of `wappendva` is not modelled, only the text and lengths it ends with.
- Crumbs are stored as multi-byte strings in the source and as character sequences here.
- `retain = true` objects: no caller uses them.
- Allocation failure: allocation succeeds.
- Integer widths: lengths, counters and the indent are unbounded.
- Runs with several display options: a document is one tree between one header and one footer.
- The XML header's version, package string and privilege are inputs; where a document is read back, version and package
  string are assumed free of quotes, markup and line breaks, because the header writes them as they are.
- XML 1.0's restriction to legal characters and its line-end normalisation: the encoder writes references to characters
  the standard does not allow, and the reader here accepts them.
- The XML reader does not know empty-element tags, single-quoted attributes, comments or CDATA, none of which is written.
- The JSON reader does not know numbers, `true`, `false` and `null`, none of which is written.
- `show_network` returns without its footer when `getifaddrs` fails; only the list it gets is modelled, on the platforms
  that have a link-level address family and a MAC address.
- Releasing strings (`free` of names, values and MACs): only the nodes of the MAC cache are tracked.
- The list of allowed NUMA nodes (src/platform/linux/platform.c:1896-1933) is made by the same loop with other names; it
  is not modelled a second time. It has no "-1" for the empty set: it passes a null pointer to printf.
- An ancestor walk from a process that is not in the table passes a null pointer to printf; the model returns `None`.
- AncestryReader.AncestryReadsBack: asks for process names without a quote, because the text writes names as they are
  and a reader would end one at its first quote; `AncestryReader.AncestryIsWritten` covers every name.
- Darwin, NetBSD and OpenBSD ancestor walks: the same scan of a table of processes as FreeBSD's, with another lookup of
  the table and another test for its ultimate parent; Linux follows the parent links under /proc one at a time.
- Name tables (signals, limits, capabilities, file systems), permission strings, kernel version comparisons and
  human-readable sizes: lookups in constant tables and arithmetic on one number, which keep no state and feed an entry
  with a text; texts are arbitrary here.
