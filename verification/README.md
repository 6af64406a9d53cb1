# Verified models of the avant components

Dafny models of the parts of this repository whose correctness is hardest to see by reading: the
expression code generator of the embedded Lua, the JSON and XML libraries, the chunked-body states of
the HTTP parser, the shared-memory pool, the timer manager, the byte buffer, and the reference system
of the Lua auxiliary library.  `dafny verify dfyconfig.toml` checks all of it.

What is proved, in one line each:

- Lua code generation preserves meaning.  For every list of assignments to locals whose right-hand
  sides are built from `and`, `or`, `not`, order comparisons, constants, locals and upvalues, running
  the generated code from its first instruction ends behind the last one with the locals that the
  statements prescribe, for every initial register file, every upvalue and every comparison relation.
  Immediate operands fit their fields.  Generation fails only when more than 255 registers are needed or the code is longer than a jump.
- Jump threading in the final pass rewrites the array it reads and never changes where control lands.
  For a whole function body, from its first instruction to the final return, the finished code still
  leaves the locals that the statements prescribe.
- The compressed line table decodes to the plain list of lines after every run of the generator, which
  saves a line after each removal; for a removal on its own it is shown exactly when every next save
  is still recorded correctly.
- JSON and XML: each parser accepts exactly the texts of a grammar that is written down without it, and
  returns what they stand for.  The grammar of JSON is that of RFC 8259, with the ranges of numbers and at
  most 512 levels; that of XML has spaces, either quote, references, comments and instructions, matching
  tags, distinct keys, no text behind a child, and at most 128 levels.
- Parsing inverts printing, exactly up to these limits; for XML exactly on trees in which no text starts
  with a space.  What either parser returns from a well-formed UTF-8 document is well-formed UTF-8, and
  an escape or reference gives the bytes whose bits are those of the character it names.
- Digit runs of any length are read exactly in all three places that accumulate them.
- The HTTP parser gives the same state and the same body however its input is divided, and reaches a
  state without error exactly on the chunks, and the part of a chunk, that the state tells.
- Pool slots are exclusive under every interleaving of single atomic exchanges.
- A timer is accepted exactly if it fires, and never twice at one instant.  A pass fires everything due,
  nothing early, in order.  Over every run of the manager the k-th
  firing of a timer is at its start plus k intervals, until it is replaced, deleted or spent.  The
  loop of a pass ends from every state if and only if the time is below the last clock value; at that
  value it ends if and only if it does not get to two infinite timers with a saturated expiry.
- After a release, every later sequence of requests and releases of live references gets fresh
  references and keeps all live values, if and only if the reference was neither slot 1 nor free
  already.
- The buffer is a queue of bytes; when `write` throws is characterised exactly.

## How the models are built

Every reader has a grammar of its own: a type of trees that keep each byte of the text (`JsonGrammar`,
`XmlGrammar`), with the text of a tree, what it stands for, and when it is well-formed, all in terms of
literal characters, of tables of digits and of numbers (`Notation`).  A text denotes a value if some
well-formed tree has that text and that meaning.  `JsonExact` and `XmlExact` show both directions: texts of
trees are read as their meaning, and from whatever is read a tree can be built.

Each class of the source that updates its fields is a Dafny class; its methods are proved against
functions on values, and the theorems are lemmas about those functions or about the values the methods
leave behind.  Exceptions and error codes are result values.  Bytes are numbers below 256.  Integers
are unbounded, and 64-bit limits are written out wherever the code depends on them.

Generated Lua code is given a meaning while it is still incomplete (`LuaMeaning`).  A descriptor whose
value is not in a register yet, or whose code can still leave through its lists of pending jumps,
denotes an expression if every run either has left through an outer pending jump, or leaves through
the true list or the false list with a value of that truth, or gets to the end with the expression's
value; and in all cases registers below the base of temporaries are unchanged.  `LuaSteps` proves one
step lemma per operation of the generator; the methods of `LuaCode.FuncState` patch the code and call
them.

## Model

| member | source | states |
|---|---|---|
| LuaVm.RunMergeNil | external/lua/lcode.c:132-149 | widening the LOADNIL in front of a run's end has the effect of a second LOADNIL, so merging is invisible to every run |
| LuaVm.RunPatchList | external/lua/lcode.c:290-302 | patching a list of pending jumps makes runs that had stopped at them go on to the target with the value in the target register, and no others |
| LuaVm.RunDrop | external/lua/lcode.c:279-282 | turning TESTSET into TEST in front of pending jumps does not change any run up to those jumps |
| LuaMeaning.TestNegatedMeans | external/lua/lcode.c:1146-1154 | after negatecondition a comparison jumps exactly when the expression is false |
| LuaMeaning.TestNotMeans | external/lua/lcode.c:1160-1172 | removing the NOT and inverting the test jumps exactly when the negated expression has the given truth |
| LuaMeaning.JoinAndMeans | external/lua/lcode.c:1794-1799 | code for the second operand behind a test of the first one, with the first one's jumps in the false list, denotes `a and b` |
| LuaMeaning.JoinOrMeans | external/lua/lcode.c:1800-1805 | the same for `a or b` and the true list |
| LuaMeaning.OrderMeans | external/lua/lcode.c:1635-1661 | the emitted comparison and jump denote the comparison, with operands swapped for `>` and `>=` |
| LuaSteps.JoinAndStep | external/lua/lcode.c:1722-1725 | well-formedness and meaning of `a and b` for all worlds and registers, through the relinking of the joined list |
| LuaSteps.JoinOrStep | external/lua/lcode.c:1726-1729 | well-formedness and meaning of `a or b` |
| LuaSteps.NotDropStep | external/lua/lcode.c:1255-1259 | swapping the lists and dropping their values turns code for `e` into code for `not e` |
| LuaSteps.FinishStep | external/lua/lcode.c:971-993 | once both lists are patched, every run ends behind the code with the value in the register |
| LuaSteps.GateStep | external/lua/lcode.c:1196-1199 | closing the list that goes through leaves exactly the runs of the other truth at the end of the code |
| LuaCode.FuncState.constructor | external/lua/lparser.c:799-815 | an empty body with its parameters in the first registers |
| LuaCode.FuncState.FixJump | external/lua/lcode.c:168-176 | succeeds exactly when the offset fits, and then changes exactly one jump |
| LuaCode.FuncState.LastJump | external/lua/lcode.c:182-193 | the traversal ends and finds the last jump of the list |
| LuaCode.FuncState.Concat | external/lua/lcode.c:182-193 | on lists of distinct jumps the result is the appended list, and only the last link of the first list changes |
| LuaCode.FuncState.PatchTestReg | external/lua/lcode.c:261-273 | a TESTSET in front of the jump gets the register or becomes a TEST; anything else is left alone |
| LuaCode.FuncState.PatchListAux | external/lua/lcode.c:290-302 | terminates; every jump of the list goes to vtarget or dtarget according to its control, and no other instruction changes |
| LuaCode.FuncState.RemoveValues | external/lua/lcode.c:279-282 | exactly the TESTSETs in front of the list become TESTs |
| LuaCode.FuncState.NeedValue | external/lua/lcode.c:955-962 | true if and only if some jump of the list is not controlled by a TESTSET |
| LuaCode.FuncState.LoadNil | external/lua/lcode.c:132-149 | a new LOADNIL, or the previous one widened to exactly the union of both ranges |
| LuaCode.FuncState.ReserveRegs | external/lua/lcode.c:476-492 | succeeds exactly when the stack limit is not exceeded |
| LuaCode.FuncState.DischargeVars | external/lua/lcode.c:819-876 | locals and upvalues become values without changing what the descriptor denotes |
| LuaCode.FuncState.Discharge2Reg | external/lua/lcode.c:882-932 | the value is in the register, and the descriptor's lists still denote the same expression |
| LuaCode.FuncState.Discharge2AnyReg | external/lua/lcode.c:937-942 | the same with a register of its own choice |
| LuaCode.FuncState.LoadBools | external/lua/lcode.c:971-986 | the two boolean loads, behind a jump around them unless a comparison falls through into them |
| LuaCode.FuncState.PatchExits | external/lua/lcode.c:987-992 | all exits lead behind the code with the value in the register |
| LuaCode.FuncState.Exp2Reg | external/lua/lcode.c:971-993 | whatever the descriptor, the expression's value is in the register when the code ends |
| LuaCode.FuncState.Exp2NextReg | external/lua/lcode.c:999-1004 | the same for the next free register |
| LuaCode.FuncState.Exp2AnyReg | external/lua/lcode.c:1011-1027 | a register without jumps that holds the value; only the register on top is in use beside the locals |
| LuaCode.FuncState.JumpOnCond | external/lua/lcode.c:1160-1172 | the new jump is taken exactly when the value's truth is `cond` |
| LuaCode.FuncState.Gate | external/lua/lcode.c:1196-1199 | the new jump joins one list and the other list goes through to the end |
| LuaCode.FuncState.GoIfTrue | external/lua/lcode.c:1178-1200 | code goes on exactly when the value is true, and leaves through the list otherwise |
| LuaCode.FuncState.GoIfFalse | external/lua/lcode.c:1205-1225 | code goes on exactly when the value is false |
| LuaCode.FuncState.FlipValue | external/lua/lcode.c:1231-1250 | the value at the end is negated, for every kind of descriptor |
| LuaCode.FuncState.CodeNot | external/lua/lcode.c:1231-1259 | the descriptor of `e` becomes one of `not e` |
| LuaCode.FuncState.PosfixAnd | external/lua/lcode.c:1794-1799 | both operands' false exits become one list, and the descriptor denotes `a and b` |
| LuaCode.FuncState.PosfixOr | external/lua/lcode.c:1800-1805 | both operands' true exits become one list, and the descriptor denotes `a or b` |
| LuaCode.FuncState.InfixOrder | external/lua/lcode.c:1751-1758 | the first operand of a comparison is a small constant or in a register |
| LuaCode.FuncState.FreeExps | external/lua/lcode.c:510-539 | freeing the higher register first, all temporaries of both operands are free again |
| LuaCode.FuncState.PosfixOrder | external/lua/lcode.c:1635-1661 | the descriptor denotes the comparison, in every combination of registers and immediates |
| LuaCode.FuncState.CompileAnd | external/lua/lparser.c:1391-1401 | infix, second operand and posfix of `and` together |
| LuaCode.FuncState.CompileOrder | external/lua/lparser.c:1391-1401 | the same for order comparisons |
| LuaCode.FuncState.Compile | external/lua/lparser.c:1377-1410 | the descriptor denotes the expression, and generation fails only if registers or jump range run out |
| LuaCode.FuncState.StoreLocal | external/lua/lcode.c:1105-1111 | the value is in the local variable and no other local has changed |
| LuaCode.FuncState.CompileBlock | external/lua/lparser.c:877-886 | running the code of a statement list from its first instruction does what the statements do; generation fails only if the registers that the statements may need exceed the limit or the code is longer than a jump |
| LuaBlock.AssignStep | external/lua/lparser.c:1515-1525 | code for one more assignment extends the meaning of the code so far by that assignment |
| LuaFinish.FinalTarget | external/lua/lcode.c:1912-1922 | the target found by following at most 100 jumps, inside the code |
| LuaFinish.FinalOnTheWay | external/lua/lcode.c:1912-1922 | the cutoff finds the end of a chain if and only if it has at most that many jumps, and otherwise stops on the way |
| LuaFinish.RedirectKeeps | external/lua/lcode.c:1962-1966 | redirecting one jump keeps where every chain ends and makes none longer |
| LuaFinish.RedirectAddsNone | external/lua/lcode.c:1962-1966 | redirecting one jump makes no chain end that did not end before |
| LuaFinish.EquivalentLands | external/lua/lcode.c:1930-1970 | control lands on the same instruction before and after, from every position, or on none in both |
| LuaFinish.Finish | external/lua/lcode.c:1930-1970 | the pass keeps where control lands, every chain of at most 100 jumps becomes direct, forward jumps stay forward, and it fails only on code beyond jump range |
| LuaBody.FinishedRun | external/lua/lcode.c:1930-1970 | on code whose jumps go forward, every run of the finished code gets to the final instruction exactly as a run of the unfinished code does, with the same registers |
| LuaBody.BodyClosed | external/lua/lparser.c:829-837 | with the final return behind it, the code of a block keeps its jumps inside, which is what the final pass needs |
| LuaCode.FuncState.OrderInstr | external/lua/lcode.c:1635-1661 | an operand becomes an immediate one only if it fits its field, and the instruction compares the two operands |
| LuaBody.CompileBody | external/lua/lparser.c:829-837 | code generation, final return and final pass together: running the finished code gets to the return with the locals that the statements prescribe, and every immediate operand fits its field of 17 or 8 bits |
| LuaLines.SavedEncodes | external/lua/lcode.c:331-346 | saving a line appends it to the list that the table encodes |
| LuaLines.GoesOnIff | external/lua/lcode.c:331-346 | every line that may be saved next is appended correctly if and only if the next entry is absolute, or the line saved last is the last one and an absolute entry is near enough |
| LuaLines.RemovedEncodes | external/lua/lcode.c:355-367 | the other lines stay encoded; every line that may be saved next is appended to them if and only if the line saved last was the last one, the entry was absolute, or the counter was above its limit |
| LuaLines.ThreeRemovalsFail | external/lua/lcode.c:355-367 | the operation on its own does not compose: on the table of four saves, three removals without a save between them and then a save decode to a wrong line; neither caller removes twice without saving, so no generated code gets there |
| LuaLines.AfterEncodes | external/lua/lcode.c:1869-1872 | emit and remove-then-emit keep table and list in step |
| LuaLines.RunTraced | external/lua/lcode.c:331-392 | every run of emit and fixline goes through: there is an entry to remove whenever the run removes one |
| LuaLines.RunEncodes | external/lua/lcode.c:331-392 | after every run of emit and fixline the table encodes the recorded lines, with absolute entries at most 128 apart and no difference equal to the sentinel |
| LuaLines.EstimateLow | external/lua/ldebug.c:68-71 | the estimate of the base entry is never too high |
| LuaLines.LineInfo.SaveLineInfo | external/lua/lcode.c:331-346 | the table becomes the one that `SavedEncodes` speaks about |
| LuaLines.LineInfo.RemoveLast | external/lua/lcode.c:355-377 | the table becomes the one that `RemovedEncodes` speaks about |
| LuaLines.LineInfo.FixLine | external/lua/lcode.c:1869-1872 | the last line is replaced, and the table stays in step |
| LuaLines.LineInfo.GetBaseLine | external/lua/ldebug.c:62-77 | the line in front of a stretch without absolute entries that ends at the instruction |
| LuaLines.LineInfo.GetFuncLine | external/lua/ldebug.c:85-97 | the recorded line of every instruction |
| LuaLines.LineInfo.ChangedLine | external/lua/ldebug.c:881-899 | true if and only if the two instructions are on different lines |
| LuaRef.OneBorder | external/lua/lauxlib.c:720-721 | the length of the table is unambiguous: one more than the most references live at a time |
| LuaRef.RefTable.Registry | external/lua/lstate.c:191-206 | a registry with values in its first slots is a table before its first use, and these values count as live |
| LuaRef.RefTable.Ref | external/lua/lauxlib.c:702-724 | a reference that is not live and not slot 1; all live values are kept; a released slot is reused first; the peak |
| LuaRef.RefTable.Unref | external/lua/lauxlib.c:727-737 | the slot of a live reference goes to the front of an acyclic list of exactly the released slots; for any other reference, the table that results and whether later calls still work |
| LuaRef.ReleaseIff | external/lua/lauxlib.c:702-737 | after a release, all later requests and releases of live references get slots from 2 on that are not live and keep every live value, for every border the length may be, if and only if the reference was neither slot 1 nor free already |
| LuaRef.TwiceGiven | external/lua/lauxlib.c:702-737 | when the p-th free slot is released again, not all of the next p + 2 calls work: the slot is given out while it is live |
| Bytes.PutSorted | external/avant-json/json.cpp:561-572 | assigning to a key keeps a map's entries in the order of its keys |
| Bytes.PutLookup | external/avant-json/json.cpp:561-572 | the last assignment to a key counts, and other keys are not touched |
| JsonRound.PieceEscaped | external/avant-json/json.cpp:17-58 | the escape of every byte is read back as that byte |
| JsonRound.StringRound | external/avant-json/parser.cpp:151-299 | the parser undoes the escapes of every byte string |
| JsonRound.IntegerExact | external/avant-json/parser.cpp:329-346 | a number without fraction and exponent is accepted if and only if its value is a long long: the 19-digit cutoff rejects nothing else |
| JsonRound.FiniteByDecade | external/avant-json/parser.cpp:349-355 | the overflow test rejects every nonzero digit string with a power of ten of 309 or more, and accepts whenever the number of digits plus the power is at most 308 |
| JsonRound.IntRound | external/avant-json/parser.cpp:301-347 | every printed long long is read back |
| JsonRound.ValueRound | external/avant-json/parser.cpp:369-461 | a printed value is read back at every depth, whatever follows it, or rejected because of its nesting |
| JsonRound.RoundTrip | external/avant-json/json.cpp:628-701 | parsing a printed value gives the value if it is nested at most 512 levels, and an error otherwise |
| JsonWf.ValueFits | external/avant-json/parser.cpp:369-461 | accepted values are well-formed and nested within the limit |
| JsonWf.Reprint | external/avant-json/parser.cpp:357-367 | printing an accepted document without doubles and parsing it again changes nothing |
| JsonWf.EqualIs | external/avant-json/json.cpp:469-516 | operator==, which looks keys up, is equality of values up to the spelling of doubles, whatever strtod makes of them |
| Unicode.Utf8Exact | external/avant-xml/document.cpp:20-42 | append_utf8 gives the one shortest byte string with the marks of UTF-8 whose bits are the number, six of each byte but the first |
| Unicode.Decoded | external/avant-json/parser.cpp:270-292 | the byte sequences called well-formed are exactly the encodings of scalar values (one half), and their bits are these values |
| Unicode.ScalarsOf | external/avant-json/parser.cpp:270-292 | collecting the bits of an encoded list of scalar values gives the list |
| Unicode.EncodedRead | external/avant-json/parser.cpp:270-292 | encodings of scalar values are well-formed (other half) |
| JsonUtf8.PairScalar | external/avant-json/parser.cpp:231-264 | a surrogate pair stands for one scalar value beyond the basic plane, from which it can be recovered |
| JsonUtf8.StringUtf8 | external/avant-json/parser.cpp:151-299 | a string read from well-formed text is well-formed, and so is the text behind it |
| JsonUtf8.DocumentUtf8 | external/avant-json/parser.cpp:357-367 | all strings and keys from a well-formed document are well-formed |
| JsonTokens.QuadIs | external/avant-json/parser.cpp:212-230 | four bytes are read as a number if and only if they write it in hexadecimal digits of either case |
| JsonTokens.LetterRead | external/avant-json/parser.cpp:156-297 | every plain byte, one-character escape, four-digit escape and surrogate pair is read as the bytes it stands for |
| JsonTokens.LetterOf | external/avant-json/parser.cpp:156-297 | and whatever is read as part of a string is one of these |
| JsonTokens.EscapesRead | external/avant-json/parser.cpp:208-293 | a string in ASCII with escapes for everything else is read as bytes whose bits are those of the characters named, one for each letter |
| JsonTokens.NumberExact | external/avant-json/parser.cpp:27-99 | the scanner ends at n if and only if the text up to n is sign, integer, fraction and exponent as in section 6 of RFC 8259, and what follows is not more of it |
| JsonTokens.FiniteIs | external/avant-json/parser.cpp:349-355 | the overflow test passes if and only if the number written is below 2^1024 - 2^970 |
| JsonTokens.NumberRead | external/avant-json/parser.cpp:301-355 | a number is accepted if and only if it is in the range of long long, or of double if it has a fraction or an exponent, and then has the value that is written |
| JsonExact.ValueRead | external/avant-json/parser.cpp:369-461 | the text of every tree, with any spaces around its tokens, is read as what it stands for, whatever follows it |
| JsonExact.ValueOf | external/avant-json/parser.cpp:369-461 | whatever is read is spaces, the text of a tree within the depth limit, and the rest |
| JsonExact.DocumentExact | external/avant-json/parser.cpp:357-367 | a document is accepted with a value if and only if it is a text of the grammar, nested at most 512 deep, that stands for the value |
| JsonExact.LastCounts | external/avant-json/parser.cpp:421-458 | looking up a key in a parsed object gives the value written last for it, and the members are in the order of their keys |
| JsonPrint.PrintIs | external/avant-json/json.cpp:17-58 | the printer writes the text of the grammar without spaces, with members in order and the short escapes, the four-digit ones in lower case for other control characters, and no others |
| JsonParser.AppendEscapedBody | external/avant-json/json.cpp:17-58 | the escaped bytes are appended |
| JsonParser.ScanNumber | external/avant-json/parser.cpp:27-99 | finds the end that `NumberExact` speaks about, or rejects |
| JsonParser.Parser.SkipWhiteSpaces | external/avant-json/parser.cpp:108-114 | the cursor is behind the spaces |
| JsonParser.Parser.ReadCodePoint | external/avant-json/parser.cpp:208-268 | four digits, or two surrogates that belong together; a lone surrogate is an error |
| JsonParser.Parser.ParseString | external/avant-json/parser.cpp:151-299 | returns the string and leaves the cursor behind it, or rejects, as the specification says |
| JsonParser.Parser.ParseNumber | external/avant-json/parser.cpp:301-355 | the same for numbers, with rejection of integers beyond long long and of numbers that overflow a double |
| JsonParser.Parser.ParseElements | external/avant-json/parser.cpp:391-419 | the same for arrays |
| JsonParser.Parser.ParseMembers | external/avant-json/parser.cpp:421-458 | the same for objects |
| JsonParser.Parser.ParseValue | external/avant-json/parser.cpp:369-461 | the same for values at any depth |
| JsonParser.Parser.Parse | external/avant-json/parser.cpp:357-367 | returns a value if and only if the text denotes it in the grammar |
| XmlRound.DecodeEscape | external/avant-xml/element.cpp:166-194 | decoding undoes escaping on every string |
| XmlRound.AttrsRound | external/avant-xml/document.cpp:376-428 | printed attributes are read back in order, empty values included |
| XmlRound.ElementRound | external/avant-xml/document.cpp:366-499 | a printed element is read back in its normal form, whatever follows it, or rejected because of its nesting |
| XmlRound.RoundTrip | external/avant-xml/element.cpp:197-230 | parsing a printed legal tree gives the tree without spaces in front of its texts if it has at most 128 levels, and an error otherwise |
| XmlRound.RoundTripIff | external/avant-xml/element.cpp:197-230 | a legal tree survives if and only if it has at most 128 levels and no text starts with a space |
| XmlRound.ElementFits | external/avant-xml/document.cpp:366-499 | accepted elements have legal names, distinct sorted keys, and a bounded depth |
| XmlRound.ReprintIff | external/avant-xml/document.cpp:227-330 | an accepted document survives printing and parsing if and only if no text in it starts with a space |
| XmlRound.SpacedText | external/avant-xml/document.cpp:430-436 | a document that does not, because its text is a reference to a space |
| XmlTokens.RunRead | external/avant-xml/document.cpp:66-85 | a run of decimal or hexadecimal digits is read as the number that it writes |
| XmlTokens.DecodeExact | external/avant-xml/document.cpp:109-156 | text decodes to bytes if and only if it can be cut into bytes, the five entities and numeric references that stand for them, an ampersand being itself only where no reference starts |
| XmlTokens.ReferencesRead | external/avant-xml/document.cpp:54-100 | text in ASCII with references for everything else is decoded to bytes whose bits are those of the characters named, one for each unit |
| XmlExact.AttrsRead | external/avant-xml/document.cpp:376-428 | attributes with any spaces and either quote are read in turn, if their keys are distinct |
| XmlExact.AttrsOf | external/avant-xml/document.cpp:376-428 | whatever is read as a start tag is attributes with distinct keys, spaces and a bracket |
| XmlExact.AttrsWritten | external/avant-xml/document.cpp:419-427 | each key has the decoded value written for it, and there are no others |
| XmlExact.NodeRead | external/avant-xml/document.cpp:366-499 | the text of every element within the depth limit is read as what it stands for, whatever follows it |
| XmlExact.NodeOf | external/avant-xml/document.cpp:366-499 | whatever is read is the text of an element: the end tag has the name of the start tag, and only comments, children and spaces are behind the text |
| XmlExact.DocumentExact | external/avant-xml/document.cpp:227-330 | a document is accepted with an element if and only if it is a text of the grammar, with at most 128 levels, that stands for the element |
| XmlPrint.PrintIs | external/avant-xml/element.cpp:166-230 | the printer writes the text of the grammar with one space in front of each attribute, double quotes, the four entities where they are needed, and no other spaces but that of an empty tag |
| XmlParser.CappedExact | external/avant-xml/document.cpp:69-85 | stopping to accumulate beyond the last code point never changes whether, and as what, a reference is accepted |
| XmlParser.DecodeNumericRef | external/avant-xml/document.cpp:54-100 | a terminated run of digits is accepted if and only if its value is a character other than NUL, and gives its UTF-8 |
| XmlParser.DecodeEntities | external/avant-xml/document.cpp:109-156 | the loop computes the decoding that `DecodeEscape` speaks about |
| XmlParser.EscapeText | external/avant-xml/element.cpp:166-194 | the loop computes the escaping that `DecodeEscape` speaks about |
| XmlParser.Parser.ParseName | external/avant-xml/document.cpp:501-515 | the longest name at the cursor |
| XmlParser.Parser.ParseText | external/avant-xml/document.cpp:517-528 | the text up to the next tag, without spaces in front |
| XmlParser.Parser.ParseAttrValue | external/avant-xml/document.cpp:550-566 | the decoded value between quotes of either kind |
| XmlParser.Parser.ParseAttrs | external/avant-xml/document.cpp:376-428 | the attributes of a start tag; a repeated key is an error |
| XmlParser.Parser.ParseElement | external/avant-xml/document.cpp:366-499 | returns the element and leaves the cursor behind it, or rejects, as the specification says |
| XmlParser.Parser.ParseComment | external/avant-xml/document.cpp:343-355 | the cursor is behind the first terminator that does not overlap the opening |
| XmlParser.Parser.Parse | external/avant-xml/document.cpp:227-330 | returns an element if and only if the text denotes it in the grammar |
| XmlUtf8.DecodeUtf8 | external/avant-xml/document.cpp:109-156 | decoding keeps text well-formed from the middle of any character on, because references are whole characters |
| XmlUtf8.ElementUtf8 | external/avant-xml/document.cpp:366-499 | from well-formed text an element has well-formed names, texts, keys and values, and well-formed text follows it |
| XmlUtf8.DocumentUtf8 | external/avant-xml/document.cpp:227-330 | all names, texts, keys and values from a well-formed document are well-formed |
| Chunked.MulAddExact | external/llhttp/llhttp.c:809-833 | one digit is added without overflow, or rejected because the value needs more than 64 bits |
| Chunked.AccumulateExact | external/llhttp/llhttp.c:1031-1055 | a run of decimal or hexadecimal digits of any length is rejected if and only if its value is at least 2^64 |
| Chunked.SizeExact | external/llhttp/llhttp.c:1788-2028 | the size of a chunk is the number that its digits write, in either case and with any zeros in front, or an error at 2^64 and beyond |
| Chunked.PrintedSize | external/llhttp/llhttp.c:1788-2028 | in particular a number as printf writes it, in lower or upper case |
| Chunked.FeedBoth | external/llhttp/llhttp.c:1293-1364 | feeding two pieces is feeding their concatenation |
| Chunked.ChunkDecodes | external/llhttp/llhttp.c:1293-1381 | a chunk in any spelling of its size adds its data to the body and leads back to the start |
| Chunked.BodyDecodes | external/llhttp/llhttp.c:1293-1381 | for an encoded list of chunks and a zero size, the body is their data, and the trailer comes next |
| ChunkExact.FramingExact | external/llhttp/llhttp.c:1293-1381 | a state without error is reached by exactly the bytes that are whole chunks and the part of another that the state tells, or whole chunks and a zero size; body and remaining length are those of these bytes |
| ChunkExact.RejectedIff | external/llhttp/llhttp.c:1754-2028 | from there exactly the bytes that the framing does not allow are rejected: a bad digit or a size of 2^64 and more, a missing CR, a missing LF, each with its error code |
| Chunked.Parser.MulAddContentLength | external/llhttp/llhttp.c:1031-1055 | the 64-bit checks reject exactly the values that do not fit |
| Chunked.Parser.RunByte | external/llhttp/llhttp.c:1754-2028 | the states that look at one byte do what the specification does, with the same error codes |
| Chunked.Parser.RunData | external/llhttp/llhttp.c:1329-1354 | consuming all that is there at once is feeding the bytes one by one, and on_body gets them all |
| Chunked.Parser.Execute | external/llhttp/llhttp.c:10247-10279 | state, error and concatenated body are a function of the bytes fed so far |
| Chunked.Parser.ExecuteAll | external/llhttp/llhttp.c:10247-10279 | they do not depend on how the bytes are divided into calls |
| ShmPool.PaddingAligns | external/avant-ipc/shm.h:139-156 | padding is smaller than the alignment and aligns |
| ShmPool.LayoutFits | external/avant-ipc/shm.h:116-162 | header, use-list and objects are disjoint, aligned and inside the mapping, for every count, size and alignment |
| ShmPool.BackExact | external/avant-ipc/shm.h:400-436 | back derives index i from an address if and only if it is the start of slot i |
| ShmPool.StepKeeps | external/avant-ipc/shm.h:362-452 | every single exchange of every client keeps exclusivity and the count of held slots |
| ShmPool.AlwaysExclusive | external/avant-ipc/shm.h:362-452 | in every run, a slot is in use if and only if exactly one client holds it, and held plus free slots are the count |
| ShmPool.AllocFresh | external/avant-ipc/shm.h:375-394 | the exchange of alloc claims a slot if and only if nobody holds it |
| ShmPool.BackSucceeds | external/avant-ipc/shm.h:438-451 | back on a held slot finds it in use and leaves it free |
| ShmPool.NullMeansSeen | external/avant-ipc/shm.h:375-397 | alloc returns nullptr only if each slot was in use at the very step of this sweep at which the client exchanged it |
| ShmPool.Alloc | external/avant-ipc/shm.h:362-397 | undisturbed, alloc claims the first free slot, or none if all are used |
| ShmPool.Back | external/avant-ipc/shm.h:400-452 | undisturbed, back succeeds exactly on the address of a slot in use, and frees only that one |
| Timer.FiringTime | external/avant-timer/timer.cpp:8-28 | a timer that has run k - 1 times expires at its start plus k intervals, saturated |
| Timer.AcceptedIff | external/avant-timer/timer_manager.cpp:11-18 | a timer is acceptable if and only if it has a first firing and no two of its firings are due at one instant, that is, if it fires once, or more often with a positive interval |
| Timer.AddedFires | external/avant-timer/timer_manager.cpp:5-99 | an accepted timer that is due already fires in the next pass, also with an interval of zero |
| Timer.RanArmed | external/avant-timer/timer.cpp:46-72 | a timer that is to fire again has a later expiry, unless the clock has run out |
| Timer.EmplaceOk | external/avant-timer/timer_manager.cpp:32-35 | inserting behind equal keys keeps the queue in order |
| Timer.RoundDescends | external/avant-timer/timer_manager.cpp:46-99 | each firing lowers the distance of all timers from the future |
| Timer.AfterDue | external/avant-timer/timer_manager.cpp:48-61 | nothing fires before it is due, in any number of rounds and at every time |
| Timer.AfterOrder | external/avant-timer/timer_manager.cpp:46-99 | timers fire in nondecreasing order of expiry, in any number of rounds and at every time |
| Timer.PassFires | external/avant-timer/timer_manager.cpp:46-99 | every timer due when a pass starts fires in it |
| Timer.AfterIterates | external/avant-timer/timer_manager.cpp:63-98 | in any number of rounds the firings of one timer are the timer, the timer after one run, after two, and so on, and the queue holds the next of these, or none if it is spent |
| Timer.StepOk | external/avant-timer/timer_manager.cpp:5-115 | every operation keeps the queue ordered by expiry with unique ids and acceptable timers |
| Timer.RunIterates | external/avant-timer/timer_manager.cpp:5-115 | the same over every run of add, mark_delete and check_and_handle that does not replace or delete the timer |
| Timer.RunOnTime | external/avant-timer/timer_manager.cpp:5-115 | over every such run after a timer that fires once, or more often with a positive interval, was added, its k-th firing is at its start plus k intervals, saturated; it fires at most as often as it repeats, and is queued exactly until then |
| Timer.PassesSettle | external/avant-timer/timer_manager.cpp:46-99 | after enough passes with the same time nothing is due |
| Timer.EndsBefore | external/avant-timer/timer_manager.cpp:46-99 | below the last clock value the loop ends from every state, after no more rounds than the timers are behind |
| Timer.NeverEnds | external/avant-timer/timer_manager.cpp:46-99 | at the last clock value, once two saturated infinite timers are at or behind the iterator, every number of rounds leaves it at a timer that is due |
| Timer.EternalPair | external/avant-timer/timer_manager.cpp:46-99 | adding two infinite timers whose expiry saturates gives a manager whose check at the last clock value never ends |
| Timer.EndsIff | external/avant-timer/timer_manager.cpp:46-99 | the loop ends from every state if and only if the time is below the last clock value |
| Timer.EndsAtLast | external/avant-timer/timer_manager.cpp:46-99 | at the last clock value it ends from a given state if and only if its rounds do not get to two such timers |
| Timer.FewEnd | external/avant-timer/timer_manager.cpp:46-99 | with at most one infinite timer it ends at every time |
| Timer.Manager.Add | external/avant-timer/timer_manager.cpp:5-44 | accepts exactly timers that fire once, or more often with a positive interval, leaves everything alone otherwise, puts one in place of a timer with the same id behind those with the same expiry, and keeps queue and index in agreement |
| Timer.Manager.MarkDelete | external/avant-timer/timer_manager.cpp:101-115 | exactly the timer with this id is gone from queue and index |
| Timer.Manager.Handle | external/avant-timer/timer_manager.cpp:63-98 | one round keeps queue and index in agreement, with the iterator where the erase left it |
| Timer.Manager.CheckAndHandle | external/avant-timer/timer_manager.cpp:46-99 | wherever the loop ends, it leaves the queue of the pass and fires exactly its timers, in its order |
| Timer.Manager.Exist | external/avant-timer/timer_manager.cpp:127-130 | the index answers for the queue |
| Buffer.Buffer.constructor | external/avant-buffer/buffer.cpp:7-10 | an empty buffer |
| Buffer.Buffer.Copy | external/avant-buffer/buffer.cpp:12-21 | the same unread bytes in storage of its own |
| Buffer.Buffer.Assign | external/avant-buffer/buffer.cpp:23-36 | the same by assignment, also to itself |
| Buffer.Buffer.Adopt | external/avant-buffer/buffer.cpp:52-68 | the unread bytes move over, and the other buffer is empty and usable |
| Buffer.Buffer.Read | external/avant-buffer/buffer.cpp:80-94 | takes as many bytes as there are from the front, and writes no others |
| Buffer.Buffer.Write | external/avant-buffer/buffer.cpp:96-124 | appends the bytes, or throws under an exact condition and leaves the unread bytes alone; the last internal write always succeeds |
| Buffer.Buffer.CheckAndWrite | external/avant-buffer/buffer.cpp:126-136 | writes all or nothing, and all exactly when there is room |
| Buffer.Buffer.MoveToBefore | external/avant-buffer/buffer.cpp:138-144 | compaction keeps the unread bytes |
| Buffer.Buffer.NewCapacity | external/avant-buffer/buffer.cpp:299-307 | doubling ends with enough room and at most twice the limit |
| Buffer.Buffer.EnsureCapacity | external/avant-buffer/buffer.cpp:288-314 | growth keeps the unread bytes although it copies from the base, and fails only if they exceed the limit |
| Buffer.Buffer.BlankSpace | external/avant-buffer/buffer.cpp:217-227 | the larger of capacity and limit, less the unread bytes |
| Buffer.Buffer.BlankSpaceSuffices | external/avant-buffer/buffer.cpp:217-227 | a write within blank space and limit does not throw |
| Buffer.Buffer.SetLimitMax | external/avant-buffer/buffer.cpp:229-239 | the limit only grows |
| Buffer.Buffer.ReadPtrMoveN | external/avant-buffer/buffer.cpp:178-195 | drops exactly n unread bytes, or none if there are fewer |
| Buffer.Buffer.CopyAll | external/avant-buffer/buffer.cpp:160-176 | copies all unread bytes or none |
| Buffer.Buffer.Clear | external/avant-buffer/buffer.cpp:246-258 | nothing is unread |

## Left out

- Lua expressions other than `and`, `or`, `not`, order comparisons, integer and string constants, nil, booleans, locals, upvalues and parentheses: equality uses the constant table; arithmetic, indexing, calls, floats and constant folding are not modelled.
- Lua statements other than single assignments to locals: a condition that is nil becomes false before its jump is generated, and loops jump backwards.
- The constant table of a Lua function, its size limits, and the 32-bit encoding of instructions apart from the ranges of jumps and of immediate operands: constants are operands.
- LuaCode.FuncState.OrderJump: merges the three branches of codeorder by the kinds of the operands, because converting an operand that is in a register already emits nothing.
- The cases of luaK_finish other than jumps, and its assertions about open calls.
- LuaFinish.Finish: requires that jumps stay inside the code, which `LuaBody.BodyClosed` gives for the code of function bodies.
- LuaBody.CompileBody: the body is a list of assignments to parameters and ends with the return that close_func adds; the machine stops in front of that return.
- LuaRef.RefTable.Unref: requires a table that is in use, as the source asserts.
- JSON doubles: a number with a fraction or exponent is kept as its text, and its overflow is decided by the exact decimal value, as a correctly rounding strtod does; which double it becomes, and %.17g, are not modelled.
- JsonWf.Reprint: excludes documents with doubles, because their printing is not modelled.
- The accessors and mutators of json other than operator[] on objects and operator==, and the file loading of xml documents.
- XML names follow isalpha and isalnum in the C locale.
- Chunk extensions, trailers and all other states of the HTTP parser, lenient flags, and callbacks that fail or pause: the model stops where extensions or trailers start.
- Chunked.Parser.Execute: bytes behind a semicolon or behind the zero size line are not run.
- Chunked.Parser.ExecuteAll: the same.
- LuaCode.FuncState.CompileBlock: why generation fails is stated in one direction; the registers that an expression may need are an upper bound of those it takes.
- shm mapping, header validation and reset; sizes beyond 64 bits; the memory orders of the exchanges, which are taken as sequentially consistent.
- Timer.Manager.CheckAndHandle: requires that its loop ends, which is proved for every time below UINT64_MAX and characterised at UINT64_MAX (`Timer.EndsIff`, `Timer.EndsAtLast`).
- Timer callbacks that change the manager, enforce_run on a queued timer, and null timers: timers are values, so sharing a timer object with the caller is not captured.
- Buffer.Buffer.Write: a null source is not modelled; a source is a sequence of bytes.
- The force_get accessors of the buffer, which hand out its storage, memory exhaustion, and limits beyond the address space.
