# The JSON library and the CMP session protocol, modelled and proved in Dafny

The project models two parts of the control center and its AW-2401 controller and proves what they promise.

**The JSON library** (`ControlCenter/jsonHandler/cJSON.cpp`). A value (`JsonTree.Json`) is null, false, true, a
number, a string, an array or an object with its members in order, duplicates kept. `JsonTree.Print` is the text the
printers are meant to produce in either layout, `JsonParse` the language the parser accepts, with the text behind
the value, and `JsonMinify` what the minifier computes. Against these stand the imperative parts: the recursive
parser over a node heap, the printer that allocates a buffer for every value, the printer that grows one buffer, the
in-place minifier, the doubly linked child lists, the deep copy and the deletion with a log of freed blocks. A tree
in memory is a set of `Node` objects with a ghost map from each node to its children in order; `Content` is what the
nodes hold without the links, and `Denotes` relates that to a value. `JsonHeap.Tree` says that such a tree is
complete: linked both ways, each node with strings of its own, and nothing beside it. Parsing and copying make
complete trees; every edit in `JsonTreeEdits` and `JsonValueEdits` turns the complete tree of an array or object into
that of the edited value, and `JsonNestedEdits` does so for an array or object anywhere inside a document: a path of
places (`JsonPaths`) leads to it, and all around the path stays as it was. Printing walks trees (`JsonWalk`) and
deletion frees each block of them once (`JsonOwnership`), so the operations can be chained, as in `JsonSession`.
Numbers are exact decimals; printing covers those within `int`, which is the branch of `print_number` that writes
`%d`.

The specification functions have references of their own beside them: `JsonGrammar` and `JsonTexts` write texts from
tables and blanks chosen at will, and the parser accepts exactly what they write; `JsonComments` puts layout and
comments between tokens; `JsonLayout` describes the printed layout by joined lines and tables.

**The CMP session protocol.** `CmpPacket`, `CmpCodec`, `CmpHandler` and `CmpEncoder` model the header of four
32-bit integers in network byte order, the encoding of requests and `parseBody`, and `CmpClientHandler` the
`parseBody` of the AW-2401 controller; `CmpFraming` and `CmpClientFraming` the two receive loops over a byte stream;
`CmpRegistry` the table of bound controllers as a list of rows; `CmpControlCenter` the dispatch of received packets,
the handlers and one round of the keep-alive; `CmpController` the controller's side; and `CmpKeepAlive` both sides
together as a state machine over channels, with proofs over all runs. `CmpRefinement` shows that the methods of the
center are steps of that machine, and `CmpTwoParties` hands packets of the one side to the other. `CmpWire` describes
packets as bytes, and `CmpExchange` and `CmpControllerExchange` say for every command which bytes answer which bytes.

Some methods are cut where the code has one loop body or one function, so that each proof stays small; a doc comment
says which part of the code such a method is.

## Results that go against a first reading

- A string literal without its closing quote is accepted by the parser, up to the end of the text; the header file
  does not say so. Only a lone top-level string can be left open in an accepted text: `JsonClosed.AcceptedIsClosed`
  gives the exact condition, `JsonClosed.OpenLiteralIsAccepted` an instance.
- A `\u` whose next four characters are not hexadecimal is no error: those characters are dropped from the string
  (`JsonParse.Unit`, `JsonStringParser.DecodeLiteral`, `JsonGrammar.ScanPieces`).
- A block comment is over at the first star and slash, and the star of its opening counts: `/*/` is a whole comment
  for the minifier (`JsonComments.SlashEndsComment`).
- A deep copy of an item with a constant name owns a fresh copy of that name, which deletion does not free, as the
  mark is copied too. `JsonConstNames.CopyAndDelete` says for all inputs when everything is given back, and
  `JsonConstNames.CopyOfConstNameIsLost` is an instance.
- `cJSON_AddItemToObject` frees the old name of the item even when it is marked constant
  (`JsonObjects.DropsConstantName`), and the item stays marked, so its new name is never freed
  (`JsonConstNames.AddAndDelete`, with the instance `JsonConstNames.ConstNameIsFreed`).
- Adding an item under its own name reads or keeps a freed string: `JsonObjects.NameSurvives` gives the exact
  condition under which the name is still there, which both functions require, and `JsonObjects.OwnNameIsGone` and
  `JsonObjects.OwnNameIsKept` are instances.
- `cJSON_ReplaceItemInObject` overwrites the name of the new item without freeing it, and leaves the mark of a constant
  name. `JsonReplacedNames.ReplaceAndDelete` says for all inputs what a later deletion gives back: everything if and
  only if the item had no name and no mark. `JsonReplacedNames.OldNameIsLost` is an instance.
- A CMP string field that is empty is lost, and so is what stands behind it in the body: `CmpCodec.RoundTrip` holds
  if and only if no string is empty.
- An accepted MDM operation is answered with the id of a login response, a refused one with its own
  (`CmpControlCenter.DueToRequest`).
- The controller does not answer a power setting that lacks a field, and answers an enquiry only on its connection
  to the center. `CmpController.OwedIfRegular` says over any history when everyone gets the response owed;
  `CmpController.SilentSetting` and `CmpController.ClientEnquiryGoesToCenter` are instances.
- The two programs read some bodies differently. What the center passes on to an AW-2401 controller is not
  understood there (`CmpTwoParties.ForwardedSettingIsLost`, `CmpTwoParties.PortQuestionFails`), and a log passed on
  to the center arrives without its first three characters (`CmpTwoParties.PassedOnLogIsCut`).
- A disconnect leaves the rows of the socket in the table of the center; the second keep-alive round after it has
  removed them (`CmpKeepAlive.StaleRowsGo`). A bind that waited in the message queue when its socket was closed makes
  a row for the closed socket (`CmpKeepAlive.LateBind`).

## Model

| member | source | states |
|---|---|---|
| JsonRoundTrip.PrintThenParse | ControlCenter/jsonHandler/cJSON.cpp:323-337 | For every printable value and both layouts, strict parsing of the printed text gives that value back and leaves nothing of the text. |
| JsonRoundTrip.PrintThenParseMore | ControlCenter/jsonHandler/cJSON.cpp:323-339 | Without the strictness, as `cJSON_Parse` does it, the printed value is accepted in front of any text that continues no number, and that text is left. |
| JsonTexts.AcceptedTexts | ControlCenter/jsonHandler/cJSON.cpp:323-337 | The strict parse accepts a text with a value if and only if the text is a document of the grammar that means that value, with blanks around it. Any blanks may stand between the parts, numbers and literals are written from tables of digits and escapes, and a lone literal may lack its closing quote. |
| JsonTexts.LooseTexts | ControlCenter/jsonHandler/cJSON.cpp:323-339 | Whatever the parse without strictness accepts is a document of the grammar and what follows it. |
| JsonTexts.LooseRead | ControlCenter/jsonHandler/cJSON.cpp:323-339 | Any document of the grammar is read up to whatever may follow it, with blanks in front, and strictly if and only if only blanks follow. |
| JsonTexts.DocRead | ControlCenter/jsonHandler/cJSON.cpp:357-431 | Every value of the grammar, at any depth and with any blanks, is read as what it means, up to what follows it. |
| JsonTexts.ReadDoc | ControlCenter/jsonHandler/cJSON.cpp:357-431 | Every value that is read is a document of the grammar with that meaning. |
| JsonTexts.BlanksBefore | ControlCenter/jsonHandler/cJSON.cpp:330 | Blanks in front of a text make no difference, strict or not. |
| JsonTexts.BlanksBehind | ControlCenter/jsonHandler/cJSON.cpp:334 | Blanks behind an accepted text leave it accepted with its value if and only if they do not join a literal without its closing quote. |
| JsonTexts.OnlyBadEscapes | ControlCenter/jsonHandler/cJSON.cpp:216-226 | Only texts with a `\u` cut short by a quote, a backslash or the end, or with a backslash at the end, are without a result in the model. |
| JsonRoundTrip.ParsePrinted | ControlCenter/jsonHandler/cJSON.cpp:357-431 | At any nesting depth, the printed value followed by any text that cannot continue a number parses to the value and leaves exactly that text. |
| JsonRoundTrip.ParsePrintedMembers | ControlCenter/jsonHandler/cJSON.cpp:514-547 | The printed members of an object come back in order, names and values, up to the closing brace. |
| JsonRoundTrip.ScanEscaped | ControlCenter/jsonHandler/cJSON.cpp:192-307 | Unescaping undoes escaping for every NUL-free string. |
| JsonRoundTrip.NumberPrinted | ControlCenter/jsonHandler/cJSON.cpp:96-175 | Every integer written as a decimal numeral is read back exactly, with exponent zero. |
| JsonUnicode.ScanEscapes | ControlCenter/jsonHandler/cJSON.cpp:192-249 | A literal of nonzero Unicode scalar values, each written as one escape or as a surrogate pair in digits of either case, decodes to the concatenation of their UTF-8 encodings. |
| JsonUnicode.EveryScalarIsWritten | ControlCenter/jsonHandler/cJSON.cpp:216-227 | Every nonzero scalar value can be written so, in capital or in small digits. |
| JsonUnicode.ScanExample | ControlCenter/jsonHandler/cJSON.cpp:216-237 | An instance: an escape with one capital and one small digit. |
| JsonUnicode.Utf8Examples | ControlCenter/jsonHandler/cJSON.cpp:229-237 | Four characters in their known UTF-8 bytes. |
| JsonGrammar.UnitOf | ControlCenter/jsonHandler/cJSON.cpp:177-188 | Four characters taken from the alphabets `0123456789abcdef` and `0123456789ABCDEF`, in any mix, have the value of their places, base sixteen; any other four count as zero. |
| JsonGrammar.ScanPieces | ControlCenter/jsonHandler/cJSON.cpp:192-249 | A literal of any pieces, plain, short escapes from a table, code units and surrogate pairs, whole or broken, decodes to the meaning of the pieces, closed or not. |
| JsonGrammar.ReadPieces | ControlCenter/jsonHandler/cJSON.cpp:192-249 | Every literal that is read consists of such pieces. |
| JsonGrammar.NumeralRead | ControlCenter/jsonHandler/cJSON.cpp:96-115 | Every numeral has the value of its digits by their places, with the exponent it is written with less one for each digit behind the point. |
| JsonGrammar.ReadNumeral | ControlCenter/jsonHandler/cJSON.cpp:96-115 | Every number that is read is such a numeral. |
| JsonUnicode.DecodeAll | ControlCenter/jsonHandler/cJSON.cpp:216-238 | The bytes so produced decode, by an independent UTF-8 decoder, to the same scalars. |
| JsonStringParser.WriteUtf8 | ControlCenter/jsonHandler/cJSON.cpp:229-237 | The fall-through switch with its bit operators writes the UTF-8 encoding of the code point, backwards from its end. |
| JsonStringParser.CombineBits | ControlCenter/jsonHandler/cJSON.cpp:219-227 | The bit operators on two surrogates compute the code point of the pair. |
| JsonStringParser.ParseHex4 | ControlCenter/jsonHandler/cJSON.cpp:177-188 | Four hexadecimal digits give the value of their places in the two alphabets, anything else zero. |
| JsonStringParser.MeasureSuffices | ControlCenter/jsonHandler/cJSON.cpp:197-199 | The decoded text is never longer than the first pass counted. |
| JsonStringParser.ScanNulFree | ControlCenter/jsonHandler/cJSON.cpp:192-249 | Decoding never produces a NUL, so the result is a C string. |
| JsonStringParser.MeasureLiteral | ControlCenter/jsonHandler/cJSON.cpp:194-199 | The first pass counts what the second one may need, whatever escapes the literal has. |
| JsonStringParser.DecodeLiteral | ControlCenter/jsonHandler/cJSON.cpp:202-248 | The second pass fills the buffer with the text of the literal (that of `JsonGrammar.ScanPieces`), inside the measured length, and ends behind the closing quote or at the end of the text; after a `\u` without four hexadecimal digits the four characters are skipped. |
| JsonParser.ParseText | ControlCenter/jsonHandler/cJSON.cpp:323-337 | The cursor ends where the language says, or the result is null. On success the new node is the root of a fresh, well-linked tree, with strings of its own in every node, that denotes the parsed value; after a failure every node and string made on the way has been freed, each once, in the order of deletion. |
| JsonParser.ParseValue | ControlCenter/jsonHandler/cJSON.cpp:357-369 | The node it fills becomes the root of a tree that denotes the value at the cursor; it keeps its name. |
| JsonParser.ParseArrayItems | ControlCenter/jsonHandler/cJSON.cpp:406-431 | The items become the doubly linked children of the node, in order, each a well-formed tree, and the closing bracket is consumed. |
| JsonParser.ParseObjectMembers | ControlCenter/jsonHandler/cJSON.cpp:514-547 | The members become the doubly linked children of the node, in order, with their names, and the closing brace is consumed. |
| JsonParser.ParseMember | ControlCenter/jsonHandler/cJSON.cpp:514-547 | A name, a colon and a value are linked as the last child before the value is parsed. |
| JsonParser.ParseNumber | ControlCenter/jsonHandler/cJSON.cpp:96-115 | Sign, integer, fraction and exponent give the exact decimal value of the digits read. |
| JsonParser.ParseString | ControlCenter/jsonHandler/cJSON.cpp:192-249 | The value string of the item is the decoded literal; on failure the item is left alone. |
| JsonParser.Skip | ControlCenter/jsonHandler/cJSON.cpp:320 | The cursor passes everything up to and including the blank, and nothing else. |
| JsonPrinter.PrintText | ControlCenter/jsonHandler/cJSON.cpp:342-343 | The printer with a buffer for each value, walking nodes by `child` and `next`, produces the printed text of the value they show, in either layout, as a C string in a new buffer. |
| JsonPrinter.PrintArray | ControlCenter/jsonHandler/cJSON.cpp:434-511 | The children, counted and then printed one by one along `next`, give the text of the array; the size added up from their lengths is enough for it. |
| JsonPrinter.PrintObject | ControlCenter/jsonHandler/cJSON.cpp:550-658 | The same for objects, with indentation, names, separators and line ends. |
| JsonPrinter.ItemsFit | ControlCenter/jsonHandler/cJSON.cpp:471-508 | The size summed for the items covers every character written for them. |
| JsonPrinter.MembersFit | ControlCenter/jsonHandler/cJSON.cpp:560-655 | The size summed for the members covers every character written for them, at every depth and in both layouts. |
| JsonPrinter.PrintStringPtr | ControlCenter/jsonHandler/cJSON.cpp:252-307 | The buffer allocated for a string is filled by its escaped text and the terminator to the last byte. |
| JsonPrinter.PrintNumber | ControlCenter/jsonHandler/cJSON.cpp:147-175 | The fixed buffer sizes hold the numeral of every int. |
| JsonPrinted.DecimalLength | ControlCenter/jsonHandler/cJSON.cpp:147-164 | No int needs more than eleven characters. |
| JsonLayout.DecimalPlaced | ControlCenter/jsonHandler/cJSON.cpp:147-164 | An int is written as its decimal digits by place, without leading zeros, behind a minus sign if it is negative. |
| JsonLayout.EscapeTable | ControlCenter/jsonHandler/cJSON.cpp:284-304 | Seven characters are written as a backslash and a letter of a table, other control characters as `\u00` and two small hexadecimal digits, and all others as they are. |
| JsonLayout.ArrayLayout | ControlCenter/jsonHandler/cJSON.cpp:434-511 | An array is its items joined by a comma, and when formatted by a comma and a blank, between brackets. |
| JsonLayout.ObjectLines | ControlCenter/jsonHandler/cJSON.cpp:550-658 | A formatted object has a line for each member, one tab deeper than its brackets, with a colon and a tab between name and value and a comma before each further line. |
| JsonLayout.ObjectLine | ControlCenter/jsonHandler/cJSON.cpp:550-658 | An unformatted object is its members joined by commas. |
| JsonLayout.EmptyLayout | ControlCenter/jsonHandler/cJSON.cpp:560-569 | An empty object is formatted with a line end and its closing bracket one tab further out. |
| JsonPrinted.PrintNulFree | ControlCenter/jsonHandler/cJSON.cpp:372-403 | Printed texts hold no NUL, so the lengths the printers measure are the lengths written. |
| JsonStringPrinter.MeasureString | ControlCenter/jsonHandler/cJSON.cpp:256-280 | The first pass tells whether any character needs an escape and computes the exact size of the quoted text. |
| JsonStringPrinter.WriteString | ControlCenter/jsonHandler/cJSON.cpp:262-306 | Both branches write the same quoted text. |
| JsonStringPrinter.WriteEscaped | ControlCenter/jsonHandler/cJSON.cpp:286-304 | The loop writes the escape of every character in order and nothing before its start. |
| JsonBufferedPrinter.PrintBuffered | ControlCenter/jsonHandler/cJSON.cpp:345-353 | For every initial size, the buffered printer, walking the same nodes, yields exactly the text of the other printer, where the returned pointer points. |
| JsonBufferedPrinter.PrintValue | ControlCenter/jsonHandler/cJSON.cpp:372-403 | What was in the buffer stays, the text of the value follows it up to the terminator, whether or not the offset was moved. |
| JsonBufferedPrinter.PrintArray | ControlCenter/jsonHandler/cJSON.cpp:453-468 | The text of an array joins the buffer although nested calls leave their closing bracket for the caller to count. |
| JsonBufferedPrinter.PrintObject | ControlCenter/jsonHandler/cJSON.cpp:570-607 | The same for objects; the returned position accounts for the variable that the formatted branch reuses. |
| JsonBuffer.PrintBuffer.Ensure | ControlCenter/jsonHandler/cJSON.cpp:121-136 | All earlier bytes stay, the room asked for is there, and a buffer that must grow gets the least power of two that suffices. |
| JsonBuffer.PrintBuffer.Update | ControlCenter/jsonHandler/cJSON.cpp:138-144 | The new offset is that of the terminator behind the text written last. |
| JsonSizes.Pow2Gt | ControlCenter/jsonHandler/cJSON.cpp:117 | The cascade of shifts and ors yields the least power of two not below its argument, up to 2^30. |
| JsonSizes.Round | ControlCenter/jsonHandler/cJSON.cpp:117 | One round of it doubles the run of ones at the top of the number and adds no digit. |
| JsonMinifyTheorems.MinifyFormatted | ControlCenter/jsonHandler/cJSON.cpp:735-750 | Minifying the formatted text of any value gives, character by character, its unformatted text. |
| JsonMinifyTheorems.MinifyPrinted | ControlCenter/jsonHandler/cJSON.cpp:434-658 | The same at every depth, for either layout and with any closed text behind it. |
| JsonComments.SpreadMinified | ControlCenter/jsonHandler/cJSON.cpp:735-750 | Minifying tokens with any layout, line comments and block comments before, between and behind them gives the tokens one behind the other. |
| JsonComments.CommentsMinified | ControlCenter/jsonHandler/cJSON.cpp:735-750 | A document with layout and comments between its tokens means, when minified and parsed, what it means without them. |
| JsonComments.SlashEndsComment | ControlCenter/jsonHandler/cJSON.cpp:745 | An instance: the star that opens a block comment can also end it. |
| JsonMinifyParse.MinifyPreservesParse | ControlCenter/jsonHandler/cJSON.cpp:735-750 | If the strict parse accepts a text, its minified form is accepted with the same value; of a lone top-level string this is said only if it has its closing quote, which the minifier needs. |
| JsonMinifyParse.ValueMinified | ControlCenter/jsonHandler/cJSON.cpp:357-369 | Whatever the parser reads as a value, it reads as the same value in the minified text, and is left with the minified rest. |
| JsonMinifyParse.ScanMinified | ControlCenter/jsonHandler/cJSON.cpp:192-249 | A string literal is copied unchanged, escapes and all. |
| JsonMinifyParse.NumberMinified | ControlCenter/jsonHandler/cJSON.cpp:96-115 | A number ends at the same place before and after minifying. |
| JsonClosed.AcceptedIsClosed | ControlCenter/jsonHandler/cJSON.cpp:323-337 | An accepted text has all its literals closed if and only if it is not a lone string without its closing quote. |
| JsonClosed.ValueClosed | ControlCenter/jsonHandler/cJSON.cpp:357-369 | Whatever the parser reads as a value, and stops before the end of the text if it is a string, closes the literals it opens. |
| JsonClosed.ScanClosed | ControlCenter/jsonHandler/cJSON.cpp:192-249 | A literal that is read either has its closing quote, and then ends where the minifier sees it end, or runs to the end of the text. |
| JsonClosed.OpenLiteralIsAccepted | ControlCenter/jsonHandler/cJSON.cpp:192-249 | An instance: a quote and a letter are accepted as a string. |
| JsonMinifier.Minify | ControlCenter/jsonHandler/cJSON.cpp:735-750 | The in-place pass turns the text into its minified form; the write cursor is never ahead of the read cursor. |
| JsonMinifier.Advance | ControlCenter/jsonHandler/cJSON.cpp:738-748 | Each turn of the loop consumes at least one character and keeps: written part plus minified rest is the minified whole. |
| JsonMinifier.CopyLiteral | ControlCenter/jsonHandler/cJSON.cpp:747 | A literal is copied to its closing quote, which an escaped quote does not end. |
| JsonHeap.Link | ControlCenter/jsonHandler/cJSON.cpp:712-733 | A new last child is doubly linked behind the others and no other child list changes. |
| JsonHeap.SiblingsDistinct | ControlCenter/jsonHandler/cJSON.cpp:661-689 | A chain whose links are mutually inverse and whose head has no predecessor cannot hold a node twice. |
| JsonDuplicate.Duplicate | ControlCenter/jsonHandler/cJSON.cpp:708-733 | The copy is a complete tree of fresh nodes, well linked, without neighbours, whose strings are exactly the fresh blocks allocated, each in one node; it holds what the original holds less the reference marks, and without recursion the top node only. Nothing that existed is written. |
| JsonDuplicate.DuplicateChildren | ControlCenter/jsonHandler/cJSON.cpp:720-732 | All children are copied in order below the new node. |
| JsonDuplicate.CopyFields | ControlCenter/jsonHandler/cJSON.cpp:712-717 | All fields but the links are copied, strings into blocks of their own, and the reference mark is dropped while the mark of a constant name stays. |
| JsonDuplicate.CopyDenotes | ControlCenter/jsonHandler/cJSON.cpp:708-733 | A copy denotes the same value as the original. |
| JsonConstNames.StringsGivenBack | ControlCenter/jsonHandler/cJSON.cpp:81-93 | Deleting a complete tree leaves behind exactly the names marked constant, so it frees all the strings if and only if no node has such a name. |
| JsonConstNames.CopiedConstNamed | ControlCenter/jsonHandler/cJSON.cpp:717-719 | What is copied holds a constant name if and only if the copy does. |
| JsonConstNames.CopyAndDelete | ControlCenter/jsonHandler/cJSON.cpp:708-733 | A copy that is deleted again has given back all that was allocated for it if and only if what was copied has no node with a constant name; exactly those names are lost. |
| JsonConstNames.CopyOfConstNameIsLost | ControlCenter/jsonHandler/cJSON.cpp:717-719 | An instance: copying a null with a constant name and deleting the copy leaves a block behind. |
| JsonConstNames.AddAndDelete | ControlCenter/jsonHandler/cJSON.cpp:672 | An item added to an object that is then deleted: its old name has been freed, constant or not, and the new one is freed if and only if the item was not marked. |
| JsonConstNames.ConstNameIsFreed | ControlCenter/jsonHandler/cJSON.cpp:672 | An instance: a constant name is freed, and the copy put in its place is not. |
| JsonObjects.DropsConstantName | ControlCenter/jsonHandler/cJSON.cpp:672-673 | `cJSON_AddItemToObject` frees a string that the item does not own if and only if the item has a constant name; `cJSON_AddItemToObjectCS` never does. |
| JsonObjects.NameSurvives | ControlCenter/jsonHandler/cJSON.cpp:672-673 | The name handed in is still allocated when it is used if and only if it was before and is not the name of the item; the second function also allows a constant name of the item. |
| JsonObjects.TakeName | ControlCenter/jsonHandler/cJSON.cpp:673 | After the old name was dropped, the name kept has been freed if and only if it was before or is an owned name of the item itself. |
| JsonObjects.OwnNameIsGone | ControlCenter/jsonHandler/cJSON.cpp:672 | An instance: of an item added under its own name, the name about to be copied has been freed. |
| JsonObjects.OwnNameIsKept | ControlCenter/jsonHandler/cJSON.cpp:673 | An instance: the name kept has been freed. |
| JsonDelete.Delete | ControlCenter/jsonHandler/cJSON.cpp:81-93 | A chain whose order of freeing repeats nothing is freed in that order, each node after its children and strings, and no node is read after it was freed; `JsonOwnership.RootsFreedOnce` supplies what it asks for. |
| JsonDelete.FreesTheOwned | ControlCenter/jsonHandler/cJSON.cpp:81-93 | A node is freed if and only if it is in every set that holds the chain and is closed under owned children. |
| JsonDelete.FreesOwnedStrings | ControlCenter/jsonHandler/cJSON.cpp:88-89 | A string is freed if and only if some freed node owns it. |
| JsonDelete.PartsFirst | ControlCenter/jsonHandler/cJSON.cpp:86-91 | In the order of freeing every node comes behind its children and the strings it owns. |
| JsonDelete.SparesReferenced | ControlCenter/jsonHandler/cJSON.cpp:87-88 | A node reached only through reference items is not freed. |
| JsonOwnership.FreedOnce | ControlCenter/jsonHandler/cJSON.cpp:81-93 | If every node is in one child list at most and every owned string belongs to one node, no block is twice in the order in which the tree of a node is freed. |
| JsonOwnership.ChainFreedOnce | ControlCenter/jsonHandler/cJSON.cpp:84-92 | The same for any sibling chain none of whose members is below another, from any place of the chain on. |
| JsonOwnership.RootsFreedOnce | ControlCenter/jsonHandler/cJSON.cpp:84-92 | A chain of roots of such a forest, of any length, is freed without freeing anything twice. |
| JsonOwnership.DeleteRoots | ControlCenter/jsonHandler/cJSON.cpp:81-93 | Deletion of a chain of roots from ownership alone: one owner for each node and string, and nothing of it freed before. |
| JsonOwnership.DeleteTree | ControlCenter/jsonHandler/cJSON.cpp:81-93 | Deleting a complete tree frees all of its nodes and all of its strings but constant names. |
| JsonOwnership.TreesApart | ControlCenter/jsonHandler/cJSON.cpp:81-93 | The trees of two nodes of such a forest have no node in common if neither node is in the tree of the other. |
| JsonOwnership.RootsApart | ControlCenter/jsonHandler/cJSON.cpp:84-92 | The trees of two roots have no node in common. |
| JsonOwnership.AllNodesFreed | ControlCenter/jsonHandler/cJSON.cpp:81-93 | Every node of a complete tree is in its order of freeing. |
| JsonOwnership.NameFreed | ControlCenter/jsonHandler/cJSON.cpp:88-89 | Of each node the value string is freed with the tree, and the name if and only if it is not marked constant. |
| JsonOwnership.SiblingsApart | ControlCenter/jsonHandler/cJSON.cpp:81-93 | In such a forest the trees below two children of a node have no node in common. |
| JsonOwnership.SeparateCanBeDeleted | ControlCenter/jsonHandler/cJSON.cpp:81-93 | Every complete tree, so every parsed one and every copy, meets what deletion asks for. |
| JsonLists.GetArraySize | ControlCenter/jsonHandler/cJSON.cpp:661 | The size is the length of the child sequence. |
| JsonLists.GetArrayItem | ControlCenter/jsonHandler/cJSON.cpp:662 | The item at the position, the first one for positions at or below zero, null behind the last. |
| JsonLists.Places | ControlCenter/jsonHandler/cJSON.cpp:662-688 | Which place a position means for insertion, removal and replacement, below zero and behind the end too, and that all other items keep their order. |
| JsonLists.AddItemToArray | ControlCenter/jsonHandler/cJSON.cpp:671 | The child sequence grows by the item at its end, and stays doubly linked. |
| JsonLists.InsertItemInArray | ControlCenter/jsonHandler/cJSON.cpp:684-685 | The item is inserted at the position, clamped to both ends, and the list stays doubly linked. |
| JsonLists.DetachItemFromArray | ControlCenter/jsonHandler/cJSON.cpp:677-678 | The child at the position is taken out and comes back without neighbours, the others stay doubly linked. |
| JsonLists.ReplaceItemInArray | ControlCenter/jsonHandler/cJSON.cpp:686-688 | The child at the position is updated in place, and exactly the tree of the old one is freed. |
| JsonLists.DeleteItemFromArray | ControlCenter/jsonHandler/cJSON.cpp:679 | The child at the position is taken out and exactly its tree is freed. |
| JsonObjects.StrCaseCmp | ControlCenter/jsonHandler/cJSON.cpp:39-44 | Zero exactly for two missing names, or two names as long as each other whose characters are equal or the two cases of one letter of the alphabet; a missing name equals only a missing name. |
| JsonObjects.SameTextIs | ControlCenter/jsonHandler/cJSON.cpp:39-44 | Names match if and only if they are as long and have the same letters, in either case, at the same places. |
| JsonObjects.Find | ControlCenter/jsonHandler/cJSON.cpp:663 | The walk stops at the first child whose name matches, and counts its place. |
| JsonObjects.GetObjectItem | ControlCenter/jsonHandler/cJSON.cpp:663 | The first child whose name is, in these words, the one asked for, or null if there is none. |
| JsonObjects.DetachItemFromObject | ControlCenter/jsonHandler/cJSON.cpp:680 | The first child whose name matches is taken out. |
| JsonObjects.DeleteItemFromObject | ControlCenter/jsonHandler/cJSON.cpp:681 | The first child whose name matches is taken out and its tree freed. |
| JsonObjects.ReplaceItemInObject | ControlCenter/jsonHandler/cJSON.cpp:689 | The new item gets a fresh copy of the name, over an old name that is not freed, and the place of the first match, whose tree alone is freed; without a match nothing changes. |
| JsonObjects.AddItemToObject | ControlCenter/jsonHandler/cJSON.cpp:672 | The item is appended under a fresh copy of a name that is not the one it frees; its old name is freed, constant or not. |
| JsonObjects.AddItemToObjectCS | ControlCenter/jsonHandler/cJSON.cpp:673 | The item is appended under the caller's own string, which stays allocated; an old name is freed only if it was owned. |
| JsonObjects.AddItemReferenceToArray | ControlCenter/jsonHandler/cJSON.cpp:668-674 | The appended node is a fresh, nameless alias that shares the children and strings of the item and owns none of them. |
| JsonObjects.AddItemReferenceToObject | ControlCenter/jsonHandler/cJSON.cpp:675 | The same under a name; nothing is freed. |
| JsonEdits.InsertItem | ControlCenter/jsonHandler/cJSON.cpp:684-685 | What the nodes hold after an insertion stands for the array with the item inserted; the trees are those of `JsonValueEdits.InsertItem`. |
| JsonEdits.RemoveItem | ControlCenter/jsonHandler/cJSON.cpp:677-678 | The same for a child taken out. |
| JsonEdits.UpdateItem | ControlCenter/jsonHandler/cJSON.cpp:686-688 | The same for a child replaced. |
| JsonEdits.FindsFirstMember | ControlCenter/jsonHandler/cJSON.cpp:663 | Looking a name up among the nodes finds the first member of the object with that name. |
| JsonEdits.FirstMemberIs | ControlCenter/jsonHandler/cJSON.cpp:663 | That member is the first one whose name is as long and has the same letters, in either case; all edits by name speak of it. |
| JsonEdits.RemoveMember | ControlCenter/jsonHandler/cJSON.cpp:680 | What the nodes hold after detaching by name stands for the object without the first member of that name. |
| JsonEdits.ReplaceMember | ControlCenter/jsonHandler/cJSON.cpp:689 | The same for the first member of that name replaced. |
| JsonEdits.AddMember | ControlCenter/jsonHandler/cJSON.cpp:672 | The same for a member appended. |
| JsonTreeEdits.TakenApart | ControlCenter/jsonHandler/cJSON.cpp:677-678 | Taking a child out of a complete tree leaves two complete trees, but for the links still to be changed, with no node and no string in common and every node in one of them. |
| JsonTreeEdits.PutTogether | ControlCenter/jsonHandler/cJSON.cpp:684-685 | Two trees that share nothing make one with the second among the children of the first, but for the links. |
| JsonTreeEdits.InsertTree | ControlCenter/jsonHandler/cJSON.cpp:684-685 | Insertion of a complete tree, at any position or at the end, leaves one complete tree. |
| JsonTreeEdits.DetachTree | ControlCenter/jsonHandler/cJSON.cpp:677-678 | Detaching leaves two complete trees that share nothing. |
| JsonTreeEdits.DeleteFromTree | ControlCenter/jsonHandler/cJSON.cpp:679 | Deleting a child of the root frees exactly its tree, in order; the rest is a complete tree of which nothing has been freed. |
| JsonTreeEdits.ReplaceInTree | ControlCenter/jsonHandler/cJSON.cpp:686-688 | The new tree takes the place of a child of the root, whose tree is freed, in order; the result is a complete tree of which nothing has been freed. |
| JsonValueEdits.InsertItem | ControlCenter/jsonHandler/cJSON.cpp:684-685 | The tree of an array becomes one of the array with the item inserted. |
| JsonValueEdits.DetachItem | ControlCenter/jsonHandler/cJSON.cpp:677-678 | The tree of an array becomes one of the array without the item, and that of the item stays one of it. |
| JsonValueEdits.DeleteItem | ControlCenter/jsonHandler/cJSON.cpp:679 | The same; exactly the blocks of the item are freed, in order, and a node is freed if and only if it no longer belongs to the array. |
| JsonValueEdits.ReplaceItem | ControlCenter/jsonHandler/cJSON.cpp:686-688 | The tree of an array becomes one of the array with the item updated; exactly the blocks of the old item are freed, in order, and behind the last item nothing happens. |
| JsonValueEdits.DetachMember | ControlCenter/jsonHandler/cJSON.cpp:680 | The tree of an object becomes one of the object without the first member of that name, and the value taken out stays a tree. |
| JsonValueEdits.DeleteMember | ControlCenter/jsonHandler/cJSON.cpp:681 | The same; exactly the blocks of the member are freed, in order. |
| JsonValueEdits.AddMember | ControlCenter/jsonHandler/cJSON.cpp:672 | The tree of an object becomes one of the object with the member at its end, and of all that is in it nothing has been freed. |
| JsonValueEdits.ReplaceMember | ControlCenter/jsonHandler/cJSON.cpp:689 | The first member of that name is updated in the tree and in the value; exactly the blocks of the old member are freed, in order, so the overwritten name of the new item is not, and without such a member nothing happens. |
| JsonReplacedNames.ReplaceAndDelete | ControlCenter/jsonHandler/cJSON.cpp:689 | An item that replaces a member of an object that is then deleted: its old name is not freed, its new one if and only if it is not marked constant, and all else is; so everything is given back if and only if it had no name and no mark. |
| JsonReplacedNames.OldNameIsLost | ControlCenter/jsonHandler/cJSON.cpp:689 | An instance: the name of the new item is lost. |
| JsonPaths.Focus | ControlCenter/jsonHandler/cJSON.cpp:661-689 | Any node of a complete tree is the root of a complete tree of its own; what is around that shares no node and no string with it and lists it at one place. |
| JsonPaths.PutBack | ControlCenter/jsonHandler/cJSON.cpp:661-689 | Whatever complete tree the node has now, the whole is complete again, with the content of that tree at the path. |
| JsonPaths.PathTo | ControlCenter/jsonHandler/cJSON.cpp:661-663 | Every node of a document is at the end of a path. |
| JsonPaths.EditedThere | ControlCenter/jsonHandler/cJSON.cpp:661-689 | An edit of a value at a path is seen there, and at no path that parts from it. |
| JsonNestedEdits.InsertBelow | ControlCenter/jsonHandler/cJSON.cpp:684-685 | Inserting an item into an array anywhere in a document gives the document of the value with that array edited. |
| JsonNestedEdits.DetachBelow | ControlCenter/jsonHandler/cJSON.cpp:677-678 | The same for an item taken out, which stays a tree of its own. |
| JsonNestedEdits.DeleteBelow | ControlCenter/jsonHandler/cJSON.cpp:679 | The same for an item deleted; exactly its blocks are freed, in order, and a node of the document is freed if and only if it no longer belongs to it. |
| JsonNestedEdits.ReplaceBelow | ControlCenter/jsonHandler/cJSON.cpp:686-688 | The same for an item replaced. |
| JsonNestedEdits.AddMemberBelow | ControlCenter/jsonHandler/cJSON.cpp:672 | Adding a member to an object anywhere in a document gives the document of the value with that object edited, of which nothing has been freed. |
| JsonNestedEdits.DetachMemberBelow | ControlCenter/jsonHandler/cJSON.cpp:680 | The same for the first member of a name taken out. |
| JsonNestedEdits.DeleteMemberBelow | ControlCenter/jsonHandler/cJSON.cpp:681 | The same for the first member of a name deleted; exactly its blocks are freed, in order. |
| JsonNestedEdits.ReplaceMemberBelow | ControlCenter/jsonHandler/cJSON.cpp:689 | The same for the first member of a name replaced. |
| JsonNestedEdits.GetItemBelow | ControlCenter/jsonHandler/cJSON.cpp:662 | Looking up an item of an array in a document leads to the node at the path one place longer, where the next edit can be made. |
| JsonNestedEdits.GetMemberBelow | ControlCenter/jsonHandler/cJSON.cpp:663 | The same for the first member of a name. |
| JsonWalk.TreeShows | ControlCenter/jsonHandler/cJSON.cpp:372-403 | A complete tree that denotes a value can be walked by `child` and `next`, and shows that value. |
| JsonWalk.MatchShows | ControlCenter/jsonHandler/cJSON.cpp:372-403 | The nodes that hold the content of a value show it, children in order. |
| JsonWalk.CountChildren | ControlCenter/jsonHandler/cJSON.cpp:442-443 | The walk counts the child sequence. |
| JsonSession.PrintAndParse | ControlCenter/jsonHandler/cJSON.cpp:323-343 | What is printed from nodes, in either layout, is parsed to a new complete tree of the same value. |
| JsonSession.PrintWithout | ControlCenter/jsonHandler/cJSON.cpp:323-343 | Parsing an array, deleting an item, printing and deleting the rest gives the text of the array without the item, and every node of the parsed tree has been freed. |
| JsonSession.PrintWithoutIn | ControlCenter/jsonHandler/cJSON.cpp:323-343 | Parsing an object, deleting an item of the array that is its member of some name, printing and deleting the whole gives the text of the object with that item missing, and every node of the parsed tree has been freed. |
| CmpPacket.HeaderRoundTrip | ControlCenter/cmpHandler/CCmpHandler.cpp:27-103 | The four getters return what the header was formatted with, whatever follows it. |
| CmpWire.PacketRead | ControlCenter/cmpHandler/CCmpHandler.cpp:27-80 | The getters read length, id, status and sequence number from the first, second, third and fourth word of a packet, highest byte first. |
| CmpWire.PacketWritten | ControlCenter/cmpHandler/CCmpHandler.cpp:81-87 | What is formatted has these words in this order, in front of the body. |
| CmpPacket.AckIsNegative | ControlCenter/cmpHandler/CCmpHandler.cpp:313-323 | The acknowledgement test by bit mask holds exactly for negative command ids. |
| CmpPacket.ResponseSetsTheBit | ControlCenter/controlCenter/CControlCenter.cpp:239-242 | Oring in the mask sets the top bit of the id and changes nothing else. |
| CmpCodec.RoundTrip | ControlCenter/cmpHandler/CCmpHandler.cpp:116-296 | Every encoded request, in a zero-filled buffer, comes back with its command, status, sequence number and length; its fields come back if and only if no string is empty. |
| CmpCodec.FieldsOf | ControlCenter/cmpHandler/CCmpHandler.cpp:139-278 | What is received of any request: an empty string is lost, with the strings behind it. |
| CmpHandler.ParseBody | ControlCenter/cmpHandler/CCmpHandler.cpp:116-296 | The fields of the body are added to the store and the number of fields is returned, or -1 without a change if the header leaves no room for a body. |
| CmpHandler.TakeString | ControlCenter/cmpHandler/CCmpHandler.cpp:145-153 | A string field is stored and passed if it is neither empty nor too long, otherwise the cursor stays. |
| CmpHandler.DataHandler.SetChars | ControlCenter/dataHandler/CDataHandler.cpp:42-57 | A value is stored only if name and value are valid strings, and the size or -1 is returned. |
| CmpHandler.DataHandler.SetString | ControlCenter/dataHandler/CDataHandler.cpp:30-39 | The other overload checks the name only. |
| CmpHandler.DataHandler.Get | ControlCenter/dataHandler/CDataHandler.cpp:60-64 | Looking up a missing name enters it with the empty string. |
| CmpEncoder.FormatPacket | ControlCenter/Tester/CCmpTest.cpp:260-376 | The caller's buffer starts with the encoded request, the rest of it is untouched, and the length is returned. |
| CmpEncoder.AppendBody | ControlCenter/Tester/CCmpTest.cpp:285-368 | The moving index writes the fields one behind the other and the length counts them. |
| CmpEncoder.SetHeader | ControlCenter/cmpHandler/CCmpHandler.cpp:81-87 | The header fields are overwritten in network byte order and the body stays. |
| CmpFraming.RunServer | ControlCenter/socketHandler/CSocketServer.cpp:252-342 | However the reads are cut, the delivered packets are those that arrive whole and are no enquiries, in order; behind what was sent before stand one answer to each enquiry among them, in order, with the id of the response, status zero and the sequence number of the enquiry, and then the farewell; the loop ends by closing, with one disconnect message. |
| CmpFraming.ServerTurn | ControlCenter/socketHandler/CSocketServer.cpp:254-341 | One turn continues exactly if the next packet is read whole, and then delivers or answers it. |
| CmpFraming.AnswersMatch | ControlCenter/socketHandler/CSocketServer.cpp:261-272 | The answers are bare headers with the response id, status zero and the sequence numbers of the enquiries, one each and in order. |
| CmpFraming.FarewellRule | ControlCenter/socketHandler/CSocketServer.cpp:276-327 | A part of a header gets one text, a header without its body another, an end or an error none. |
| CmpFraming.ReadBody | ControlCenter/socketHandler/CSocketServer.cpp:276-292 | A body is in the buffer behind its header exactly if one read returned all of it. |
| CmpFraming.Socket.Recv | ControlCenter/socketHandler/CSocketServer.cpp:255 | A read returns at most what was asked for and what is left, into the given place of the buffer only. |
| CmpClientFraming.RunClient | ControllerAw2401/socketHandler/CSocketClient.cpp:133-206 | The controller's loop delivers, in order, all packets that arrive whole, enquiries included, writes nothing, and ends by closing. |
| CmpClientFraming.OneCutting | ControlCenter/socketHandler/CSocketServer.cpp:257-280 | A stream can be cut into well-formed packets in one way only. |
| CmpClientFraming.AllArrive | ControlCenter/socketHandler/CSocketServer.cpp:252-342 | If no read is cut short, every packet arrives. |
| CmpClientFraming.ShortReadEnds | ControlCenter/socketHandler/CSocketServer.cpp:280-317 | Reads behind the first short one make no difference. |
| CmpClientFraming.AnswerFields | ControlCenter/socketHandler/CSocketServer.cpp:262-272 | An answer is a bare header with the id of the enquire-link response, status zero and the sequence number of the enquiry. |
| CmpClientFraming.AnsweredOrPassedOn | ControlCenter/socketHandler/CSocketServer.cpp:262-340 | Every packet that arrives is either answered or delivered, never both, and there are as many answers as enquiries. |
| CmpRegistry.LookupIsLatestBind | ControlCenter/controlCenter/CControlCenter.cpp:332-345 | Over any history of binds, drops and unbinds, the lookup gives the fd of the latest bind of the id unless that fd was dropped or unbound since, and then -1. |
| CmpRegistry.RowsAreBindings | ControlCenter/controlCenter/CControlCenter.cpp:295-345 | A live row is in the table if and only if its binding is in force by the history. |
| CmpRegistry.IdsStayUnique | ControlCenter/sqliteHandler/CSqliteHandler.cpp:54-56 | No id is in the table twice after any history, though the schema declares no key. |
| CmpRegistry.UniqueStep | ControlCenter/controlCenter/CControlCenter.cpp:302-309 | One delete-then-insert, drop or unbind keeps the ids unique. |
| CmpRegistry.BoundFdsAreBindings | ControlCenter/controlCenter/CControlCenter.cpp:833-837 | The fds asked to keep alive are exactly those with some binding in force. |
| CmpControlCenter.ControlCenter.GetControllerSocketFD | ControlCenter/controlCenter/CControlCenter.cpp:332-345 | The fd of the latest bind in force of the id, or -1. |
| CmpKeepAlive.CountingInvariant | ControlCenter/controlCenter/CControlCenter.cpp:263-274 | In every reachable state the entries of an open socket on the list are as many as its enquiries and responses in flight. |
| CmpKeepAlive.StepKeepsInv | ControlCenter/controlCenter/CControlCenter.cpp:786-826 | Every step of either side keeps that count, for all sockets. |
| CmpKeepAlive.TickRule | ControlCenter/controlCenter/CControlCenter.cpp:797-822 | A round closes exactly the open sockets with something in flight, removes all rows of every socket on the list and no other, and asks the rest once for each live row. |
| CmpKeepAlive.DropRule | ControlCenter/controlCenter/CControlCenter.cpp:797-822 | From one round to the next, a socket is dropped if and only if fewer responses came from it than it had live rows; then all its rows go, otherwise all stay. |
| CmpKeepAlive.NeverDropped | ControlCenter/controlCenter/CControlCenter.cpp:263-273 | Over any run, a socket that answers every enquiry before the next round stays open and keeps its ids. |
| CmpKeepAlive.DroppedForGood | ControlCenter/controlCenter/CControlCenter.cpp:803-805 | A dropped socket has no row and gets none back in any run in which no bind of it is handled, not even one queued before the close. |
| CmpKeepAlive.StaleRowsGo | ControlCenter/controlCenter/CControlCenter.cpp:170-172 | The live rows of a disconnected socket are gone after the second round, if no bind of it is handled in between. |
| CmpKeepAlive.LateBind | ControlCenter/controlCenter/CControlCenter.cpp:295-324 | An instance: a bind that was queued before the socket was closed makes a row for it. |
| CmpKeepAlive.RemoveFirst | ControlCenter/controlCenter/CControlCenter.cpp:263-273 | The loop over the list takes off the first entry of the socket and nothing else. |
| CmpKeepAlive.BetweenTicks | ControlCenter/controlCenter/CControlCenter.cpp:263-273 | Between rounds, what is in flight on a socket shrinks by the responses received from it and by nothing else. |
| CmpKeepAlive.Numbered | ControlCenter/controlCenter/CControlCenter.cpp:32-39 | The sequence numbers of a round are consecutive from the last one on, and start over at 1 behind 0x7FFFFFFE. |
| CmpKeepAlive.RoundNumbersDiffer | ControlCenter/controlCenter/CControlCenter.cpp:812-822 | No two enquiries of a round have the same sequence number. |
| CmpControlCenter.ControlCenter.OnCMP | ControlCenter/controlCenter/CControlCenter.cpp:703-736 | Each request adds exactly one response packet, fixed to the last byte: to the requester, with its sequence number, the status of its case and the string a success carries; acknowledgements add none; after any number of packets the responses written are those due, in order; the counter of sequence numbers moves on by at most one. |
| CmpExchange.Hand | ControlCenter/controlCenter/CControlCenter.cpp:703-736 | Whatever a request consists of, in bytes, what is written and what happens to the table follows from its id, its body, the table and the services. |
| CmpExchange.BindExchange | ControlCenter/controlCenter/CControlCenter.cpp:295-324 | A bind with an id is answered with id 0x80000001, status 0 and its sequence number, and its row takes the place of any other row of that id; with an empty id the status is 0x41 and the table stays. |
| CmpExchange.UnbindExchange | ControlCenter/controlCenter/CControlCenter.cpp:326-330 | An unbind is answered with status 0, and the table stays. |
| CmpExchange.SettingExchange | ControlCenter/controlCenter/CControlCenter.cpp:347-375 | A power setting is answered with status 0 and its three characters go on under the next sequence number to the one live controller of that name, if there is one; a missing character or name gives status 0x40. |
| CmpExchange.QuestionExchange | ControlCenter/controlCenter/CControlCenter.cpp:377-412 | A question for port states is passed on as one character and answered with a fixed text, or with status 0x12, 0x08 or 0x40 if it could not be sent, has no controller or lacks a field. |
| CmpExchange.AccessLogExchange | ControlCenter/controlCenter/CControlCenter.cpp:414-445 | A log is answered with status 0 if it is not empty and the database takes it, and with 0x40 otherwise. |
| CmpExchange.InitialExchange | ControlCenter/controlCenter/CControlCenter.cpp:447-478 | The initial data are sent up to their first NUL, or status 0x08 if there are none. |
| CmpExchange.SignUpExchange | ControlCenter/controlCenter/CControlCenter.cpp:506-535 | A sign-up is answered with 0, 0x08 or 0x40. |
| CmpExchange.LoginExchange | ControlCenter/controlCenter/CControlCenter.cpp:537-562 | A login is answered with the token up to its first NUL, or with status 0x14 without a token and 0x40 without an account or a password. |
| CmpExchange.OperateExchange | ControlCenter/controlCenter/CControlCenter.cpp:564-582 | An operation with a token is answered under id 0x80000016 with a fixed text, and without one under its own id with status 0x40. |
| CmpExchange.TrackerExchange | ControlCenter/controlCenter/CControlCenter.cpp:480-503 | Tracker data are answered with status 0, and their absence with 0x40. |
| CmpExchange.EmptyExchange | ControlCenter/controlCenter/CControlCenter.cpp:728-734 | Each request that needs a body is refused without one, a bind with 0x41 and the others with 0x40. |
| CmpExchange.UnknownExchange | ControlCenter/controlCenter/CControlCenter.cpp:288-293 | Ids without a handler are answered with status 0x03. |
| CmpExchange.RoundOnWire | ControlCenter/controlCenter/CControlCenter.cpp:812-831 | The enquiries of a round in bytes: id 0x15, status 0, numbers counting on from the last one. |
| CmpExchange.EncodedOnWire | ControlCenter/Tester/CCmpTest.cpp:260-376 | The requests of the encoder in bytes: id, status 0, number, and the body with its word and its strings in order. |
| CmpExchange.TypedFields | ControlCenter/cmpHandler/CCmpHandler.cpp:197-235 | Of a body with a type, the type is the decimal of its first word and the data are the string behind it. |
| CmpExchange.LoginFields | ControlCenter/cmpHandler/CCmpHandler.cpp:236-255 | Of a login, the first string is the account and the second the password. |
| CmpControlCenter.DueToRequest | ControlCenter/controlCenter/CControlCenter.cpp:237-242 | The response due to a request has its id with the top bit set, but an accepted MDM operation gets the id of a login response. |
| CmpControlCenter.ControlCenter.OnRequest | ControlCenter/controlCenter/CControlCenter.cpp:728-734 | Ids above 0xFF and ids without a handler get the status for an invalid command; a bind with an id is the only request that changes the table. |
| CmpControlCenter.ControlCenter.CmpBind | ControlCenter/controlCenter/CControlCenter.cpp:295-324 | The table stays that of its history, which grows by the bind; the response tells whether there was an id. |
| CmpControlCenter.ControlCenter.ForwardSetting | ControlCenter/controlCenter/CControlCenter.cpp:356-361 | A power setting goes on to the controller with the latest bind in force of the name in it, and nowhere if there is none. |
| CmpControlCenter.ControlCenter.CmpPowerPortState | ControlCenter/controlCenter/CControlCenter.cpp:377-412 | One response, whose status tells a missing field, an unbound controller and a failed send apart. |
| CmpControlCenter.ControlCenter.CmpMdmLogin | ControlCenter/controlCenter/CControlCenter.cpp:537-562 | One response, with the token or the status of a failed login. |
| CmpControlCenter.ControlCenter.CmpMdmOperate | ControlCenter/controlCenter/CControlCenter.cpp:564-582 | One response, with the id of a login response if there was a token. |
| CmpControlCenter.ControlCenter.AckPacket | ControlCenter/controlCenter/CControlCenter.cpp:250-286 | An enquire-link response takes the first entry of its socket off the list; no other acknowledgement changes it. |
| CmpControlCenter.ControlCenter.EnquireRound | ControlCenter/controlCenter/CControlCenter.cpp:793-825 | One round drops the rows of all sockets on the list and closes them, then lists and asks every bound socket once for each row, with fresh sequence numbers; responses are untouched. |
| CmpControlCenter.ControlCenter.DropSilent | ControlCenter/controlCenter/CControlCenter.cpp:797-810 | Closing follows the list, row removal covers all of it, and both are entered in the history. |
| CmpControlCenter.ControlCenter.SendCommand | ControlCenter/controlCenter/CControlCenter.cpp:229-248 | A bare header goes out; it counts as a response exactly if it was sent as one. |
| CmpControlCenter.ControlCenter.CmpResponse | ControlCenter/controlCenter/CControlCenter.cpp:599-637 | A response with a string as body goes out, cut at its first NUL, with the length of both. |
| CmpControlCenter.ControlCenter.NewSequence | ControlCenter/controlCenter/CControlCenter.cpp:32-39 | Sequence numbers stay between 1 and 0x7FFFFFFE and wrap to 1. |
| CmpRefinement.Start | ControlCenter/controlCenter/CControlCenter.cpp:30-32 | A new center mirrors the initial state of the keep-alive machine. |
| CmpRefinement.Round | ControlCenter/controlCenter/CControlCenter.cpp:793-825 | A keep-alive round of a center that follows a run is the tick of the machine, and sends the enquiries of that tick. |
| CmpRefinement.Packet | ControlCenter/controlCenter/CControlCenter.cpp:703-736 | A packet handled by a center that follows a run is a received response, or a bind or a question to a controller or both, or none of these, of the machine. |
| CmpRefinement.Meanwhile | ControlCenter/controlCenter/CControlCenter.cpp:170-172 | Connects, answers on their way and disconnects leave such a center where it is. |
| CmpRefinement.ListCountsInFlight | ControlCenter/controlCenter/CControlCenter.cpp:263-274 | So in a center that has followed any run, the entries of an open socket on its list are as many as the enquiries and responses in flight. |
| CmpController.OwedIfRegular | ControllerAw2401/controller/Controller.cpp:458-632 | Over any history of packets, the responses given are those owed to the requesters, in order, if and only if no turn was an enquiry on another connection than a standing one to the center or a power setting that lacks a field. |
| CmpController.Controller.OnCMP | ControllerAw2401/controller/Controller.cpp:682-760 | After any number of packets the responses written are those given for them, in order; what one packet adds is fixed to the last byte, and so is what it does to the device table; an acknowledgement writes none. |
| CmpControllerExchange.BindAnswered | ControllerAw2401/controller/Controller.cpp:427-449 | A bind is answered with status 0 and makes the one row of its id, or with 0x41 if the id is empty. |
| CmpControllerExchange.UnbindAnswered | ControllerAw2401/controller/Controller.cpp:451-456 | An unbind is answered with status 0 and leaves no live row of the socket and all those of others. |
| CmpControllerExchange.StatesAnswered | ControllerAw2401/controller/Controller.cpp:485-524 | The states of the wire whose number is asked for are sent up to their first NUL, or status 0x12 if the device gives none. |
| CmpControllerExchange.SettingAnswered | ControllerAw2401/controller/Controller.cpp:526-632 | A setting with a state is answered with 0, or with 0x11 if the wire is not there or the device refuses; without one nothing at all is sent. |
| CmpControllerExchange.LogAnswered | ControllerAw2401/controller/Controller.cpp:463-483 | A log is answered with 0 and goes on to a connected center as it came, under the next sequence number; with an empty log or type it is answered with 0x40 only. |
| CmpControllerExchange.EnquiryGoesToCenter | ControllerAw2401/controller/Controller.cpp:458-461 | An enquiry is answered to the center with its own sequence number, or not at all. |
| CmpControllerExchange.EmptyAnswered | ControllerAw2401/controller/Controller.cpp:427-632 | Without a body a setting is not answered, a bind gets 0x41, and a log or a question 0x40. |
| CmpControllerExchange.UnknownAnswered | ControllerAw2401/controller/Controller.cpp:420-425 | Ids without a handler are answered with status 0x03. |
| CmpController.Controller.EachOnce | ControllerAw2401/controller/Controller.cpp:682-760 | So each requester has got its one response if and only if no turn was such an exception. |
| CmpController.ClientEnquiryGoesToCenter | ControllerAw2401/controller/Controller.cpp:458-461 | An instance: the response to an enquiry of a client goes to the center. |
| CmpController.SilentSetting | ControllerAw2401/controller/Controller.cpp:526-632 | An instance: a power setting without a body is not answered. |
| CmpController.Controller.OnRequest | ControllerAw2401/controller/Controller.cpp:707-713 | All responses a request causes on the controller, with receiver, status and body, by command and by the fields the packet brings. |
| CmpController.Controller.CmpEnquireLink | ControllerAw2401/controller/Controller.cpp:458-461 | An enquiry is answered on the connection to the center with its own sequence number, if that connection stands. |
| CmpController.Controller.CmpBind | ControllerAw2401/controller/Controller.cpp:427-449 | The device table stays that of its history, which grows by the bind. |
| CmpController.Controller.CmpUnbind | ControllerAw2401/controller/Controller.cpp:451-456 | After it, no id is bound to the socket. |
| CmpController.Controller.SetUnbindState | ControllerAw2401/controller/Controller.cpp:674-678 | The rows of the socket turn inactive, as the history says. |
| CmpController.Controller.CmpAccessLogRequest | ControllerAw2401/controller/Controller.cpp:327-361 | A log goes on to the center under a fresh sequence number, and is no response. |
| CmpClientHandler.ParseClientBody | ControllerAw2401/cmpHandler/CCmpHandler.cpp:116-266 | The fields the controller reads from a body, where power requests have integers and a log a type of one character, and whether there are any. |
| CmpClientHandler.DecimalReadBack | ControllerAw2401/controller/Controller.cpp:492-493 | An integer field, kept as text, is read back as the same integer. |
| CmpTwoParties.EnquiryAnswered | ControllerAw2401/controller/Controller.cpp:458-461 | An enquiry of the center, handed to the controller, yields a reply that takes one entry off the list of the center, which is otherwise as before. |
| CmpTwoParties.AnswerAll | ControlCenter/controlCenter/CControlCenter.cpp:816-821 | When the controller on a socket has answered all enquiries of a round that went to it, no entry of that socket is left. |
| CmpTwoParties.AnsweredRound | ControlCenter/controlCenter/CControlCenter.cpp:793-825 | So a round that is answered leaves the socket off the list, with its rows in place, ready for the next round. |
| CmpTwoParties.ForwardedSettingIsLost | ControlCenter/controlCenter/CControlCenter.cpp:639-673 | No power setting the center passes on is carried out or answered by an AW-2401 controller, which looks for two integers where three characters stand. |
| CmpTwoParties.PortQuestionFails | ControlCenter/controlCenter/CControlCenter.cpp:675-701 | Whatever port states the center asks such a controller for, the answer is that of a failure. |
| CmpTwoParties.PassedOnLogIsCut | ControllerAw2401/controller/Controller.cpp:341-351 | The center takes the first three characters of a log passed on by such a controller for its type, so a log arrives without them, and one of at most three not at all. |

## Left out

- Numbers that are not within `int`: `%e` and `%f` output, `double` rounding and `pow`.
- JsonParser.ParseNumber: gives the exact decimal value of the digits instead of a `double` and its cast to `int`.
- JsonPrinter.PrintNumber: covers numbers within `int`, the branch that writes `%d`.
- JsonStringParser.DecodeLiteral: gives no result (`BadEscape`, `Undefined`) where a quote, a backslash or the end of the text stands among the four characters behind a `\u`, or the text ends with a backslash, because there the cursor of the second pass leaves the literal that the first pass measured.
- JsonParser.ParseString: the same case.
- JsonParser.ParseValue: the same case.
- JsonMinifier.Minify: requires literals and comments to be closed, because otherwise its cursor passes the end of the text.
- Failed allocations, `cJSON_InitHooks`, the error pointer and null arguments of the printers.
- JsonBufferedPrinter.PrintBuffered: requires the text and 21 spare bytes to stay within 2^30, because `ensure` and `pow2gt` compute with `int`.
- JsonDuplicate.Duplicate: the original must be acyclic below the item, because a cyclic one does not terminate in the code.
- JsonHeap.Link: the links are set as in the parser and in the copy, but those functions assign them in place where they need them.
- cJSON_CreateIntArray and its siblings, and the constructors of single items.
- Edits of trees with reference items or of lists that share children: `JsonLists` and `JsonObjects` cover these, `JsonTreeEdits` does not.
- CmpHandler.ParseBody: memory behind the packet buffer reads as NUL, where the code relies on a zero-filled buffer; `parseBody` into a list of words is not modelled.
- CmpClientHandler.ParseClientBody: the same.
- SQL text, sqlite and mongo calls: the tables are lists of rows, statements succeed, and an id is compared as it is. What the log, account and MDM services return is a parameter of `OnCMP`, and texts to be sent back must fit a packet body, as `cmpResponse` copies them unchecked.
- CmpControlCenter.ControlCenter.OnCMP: the body is parsed once before the handler is chosen, where the code parses it in each handler; what the handlers pass to the services, log output, `runExportLog` and the return values of the handlers are not modelled.
- CmpController.Controller.OnCMP: the same, and the device is a parameter: its port states and the outcome of a setting.
- CmpController.Controller.CmpEnquireLink: a center is configured, because without one `cmpClient` is null and the code dereferences it.
- CmpController.Controller.CmpAccessLogRequest: the same; and the log is built as it is, where the code copies it into a fixed body unchecked.
- Results of `send` other than that of a forwarded port-state request; the code ignores them.
- Threads: each packet and each keep-alive round is one atomic step, and the sleeping loop around the round is left out.
- CmpKeepAlive.CountingInvariant: channels are FIFO for each socket, socket numbers are not reused, closing empties the channels of a socket, and peers send no enquire-link response that was not asked for.
- CmpFraming.RunServer: TCP only, and streams of well-formed packets; the socket options, epoll loop and UDP branch are left out, as are message queues, the process and signal code and the HTTP clients.
- The controller's copy of the keep-alive loop, which is that of the center on another table, and its connection attempts.
- The copies of the same code under ControllerServer, Controller and ControllerClient; configuration, sign-up, MDM and initial-data classes; AW-2401 device I/O.
