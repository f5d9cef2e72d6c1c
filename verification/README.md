# Verified models of the GOAL tools

This project models, in Dafny, the parts of the GOAL compiler and decompiler tools whose correctness rests on an
argument rather than on one function body, and proves what they promise.

- **Type system** (`type_table`, `layout`, `method_tables`, `deftypes`, `subtyping`, `type_system`): the table that
  `declare-type` and `deftype` forms build, structure layout, method ids, and the subtype order with its join. The
  table is a state; `Deftypes.EveryRunKeeps` is the invariant over every run of forms. `TypeSystemState` has the same
  operations on objects whose fields change in place, each proved against the function of the state.
- **Reverse field lookup** (`field_paths`, `reverse_lookup`, `lookup_*`): the search for field paths that reach an
  offset, against a forward meaning of paths that is defined on its own. Soundness, the exact set of loads that is
  found, and exactly when the search returns.
- **Limits of the layout** (`natural_alignment`, `embedding_limits`, `form_checks`, `builtin_types`): the exact condition
  for natural alignment, concrete runs that break alignment, completeness and termination, checks on forms that rule
  them out, and the table of builtin types, from which all runs start.
- **GOOS reader, printer and pretty printer** (`goos_objects`, `reader`, `form_tokens`, `read_*`, `text_stream`,
  `parens`, `pretty_*`): printing and reading back, and the break insertion on a doubly linked token list.
- **Bit-exact arithmetic** (`dragonbox`, `trailing_zeros`, `crc`, `adpcm`).
- **Containers** (`small_vector`, `copy_on_write`) and the **comment stripper** (`strip_comments`, `comment_grammar`).

Exceptions and failed assertions of the source are results (`Thrown`, `None`, `Failed`, `ok == false`), not
preconditions. Integers are unbounded except where a width matters, which is then written out.

## Findings

Properties that the code does not have, each with an input and the exact condition under which it does.

- **The reverse lookup need not return.** `(declare-type b structure)`, `(deftype a (structure) ((pad int32)
  (x b :inline :dynamic :offset 0)))`, `(deftype b (structure) ((y a :inline)))` are accepted; a two-byte load at
  offset 0 of `a` is then looked up forever (`EmbeddingLimits.LookupCanDiverge`). Exactly: a search moves between
  spots, a structure and an offset into it, and they are finitely many. Among any structures that embed each other
  only, where no search fails and no visible cell is what the load asks for, all lookups of the load return if and only
  if an access of its size cannot come back to a spot (`LookupCycles.LookupsReturnExactly`); where no structure has a
  field before its start, that means that none embeds itself at offset 0 (`LookupCycles.LoopsAtStart`).
- **Cells can be misaligned.** A packed `a` of one int32, `(declare-type b a)`, a `c` of an int32 and dynamic inline
  data of type `b`, then `b` with an int64 of its own: an object of type `c` at address 0 has an int64 at address 12
  (`EmbeddingLimits.CellCanBeMisaligned`). Exactly: all cells are aligned if and only if each embedded field suits
  every cell inside what it embeds (`NaturalAlignment.AlignedExactly`).
- **Loads can be missed.** With `(deftype a (structure) ((x int32 :offset -4)))` and `(deftype b (structure)
  ((y a :inline :offset 16)))` the int32 at offset 12 of `b` is not found (`EmbeddingLimits.LoadCanBeMissed`). Exactly:
  a load is found if and only if no step of its path points before the memory it steps into
  (`LookupExactness.LookupFindsExactly`).
- **The join is idempotent except on specs that compare as variadic functions** (`Subtyping.LcaIsIdempotent`).
- **Not every leaf reads back**: strings with quotes, backslashes or characters outside the source set, characters
  whose last character ends a token, symbols that lex as something else (`ReadLaws.StringReadsBack`, `CharReadsBack`,
  `SymbolReadsBack`, each an equivalence).
- **`remove_trailing_zeros` leaves a zero** exactly on multiples of 10^8, which its callers never pass
  (`TrailingZeros.RemoveTrailingZeros`, `NoneLeft`).
- **The shift selected can be negative**, which no block can be written with: for 28 deltas of 0x2000, or silence.
  Exactly when some delta needs more than 16 bits, or all deltas are multiples of 0x2000 (`Adpcm.SelectShift`).
- **Comment stripping does not go by JSON strings that end in an escaped backslash**: the text `"\\"` is rejected. On
  rows of characters, comments and JSON strings it goes by the strings exactly when none ends so
  (`CommentGrammar.JsonRowExactly`, `BackslashIsRejected`).
- **`push_back` and `insert` of an element of the vector itself** copy an object that is gone or another one:
  `push_back` exactly when the storage is full, `insert` exactly when the element is at or behind the position in
  place, or before it when growing (`SmallVectors.SmallVector.PushBack`, `Insert`, `InsertIsRight`).
- **A pointer kept from `mut()`** may be written through exactly while no other handle has taken a share
  (`CopyOnWrites.CopyOnWrite.WriteKept`).

## Model

| member | source | states |
|---|---|---|
| LookupSoundness.LookupIsSound | common/type_system/TypeFieldLookup.cpp:108-468 | every hit is a path that can be followed from the base type; with no stride, or with a variable index, it leads exactly to the offset asked for; it has at most one variable index, on an array of exactly the stride asked for; type and access are those of the place reached |
| LookupCompleteness.LookupIsComplete | common/type_system/TypeFieldLookup.cpp:237-441 | every load path of visible fixed fields and constant indices whose steps are in order is among the hits, unless the limit on hits was reached |
| LookupCompleteness.BoxedElementIsFound | common/type_system/TypeFieldLookup.cpp:108-230 | the elements of a boxed array that is asked for directly are found at every constant index |
| LookupExactness.LookupFindsExactly | common/type_system/TypeFieldLookup.cpp:237-441 | of the load paths to the offset asked for, the hits hold exactly those in order: no step points before the memory of the field or element it goes into |
| LookupExactness.LookupIsCompleteWithoutEarlyFields | common/type_system/TypeFieldLookup.cpp:325-441 | if no embedded structure has a field before its start, all load paths are found |
| LookupExactness.EarlyFieldIsMissed | common/type_system/TypeFieldLookup.cpp:340-360 | a value field before the start of an embedded structure is missed, in any table and owner |
| LookupTermination.LookupReturns | common/type_system/TypeFieldLookup.cpp:447-468 | where embedded types are older than their owners and every type the search comes to can be looked into, the lookup returns normally for every such input and limit, at a depth the table alone determines |
| LookupTermination.LookupIsExact | common/type_system/TypeFieldLookup.cpp:521-533 | on such a table and input, with a limit not reached, a load path is a hit if and only if it leads to the offset asked for and is in order; nothing is assumed about the run |
| LookupCycles.LookupReturnsWithoutRing | common/type_system/TypeFieldLookup.cpp:237-441 | if an access of its size cannot come back to a spot, every search among the structures returns: loads, stores and addresses, any stride, any limit, whatever it finds, with fields at any offset and dynamic data included |
| LookupCycles.RingSpins | common/type_system/TypeFieldLookup.cpp:237-441 | round any ring of spots, of any length and through arrays, the search for a load that no visible cell among the structures matches never returns, at no depth |
| LookupCycles.LookupsReturnExactly | common/type_system/TypeFieldLookup.cpp:447-468 | among structures that embed each other only, all lookups of such a load return if and only if there is no ring |
| LookupCycles.LoopsAtStart | common/type_system/TypeFieldLookup.cpp:325-441 | where no structure has a field before its start, there is a ring if and only if structures embed each other in a ring at offset 0 |
| LookupCycles.OlderMakesNoRing | common/type_system/TypeSystem.cpp:1183-1236 | where embedded types are older than their owners there is no ring |
| LookupOutput.ReverseFieldMultiLookup | common/type_system/TypeFieldLookup.cpp:521-533 | the four mutually recursive methods that append to one output give exactly the hits of the search function, or fail where it fails |
| LookupOutput.TryReverseLookupArrayLike | common/type_system/TypeFieldLookup.cpp:108-230 | the array branch, in place, against the function |
| LookupOutput.TryReverseLookupInlineArray | common/type_system/TypeFieldLookup.cpp:237-318 | the inline-array branch, in place, against the function |
| LookupOutput.TryReverseLookupOther | common/type_system/TypeFieldLookup.cpp:325-441 | the loop over fields, in place, against the function |
| EmbeddingLimits.LookupCanDiverge | common/type_system/TypeSystem.cpp:1183-1236 | forms the source accepts, after which a two-byte load is looked up forever |
| EmbeddingLimits.CellCanBeMisaligned | common/type_system/TypeSystem.cpp:862-919 | forms the source accepts, after which an 8-byte cell of an aligned object is at address 12 |
| EmbeddingLimits.LoadCanBeMissed | common/type_system/TypeSystem.cpp:862-919 | forms the source accepts, after which a load that a path leads to has no hit |
| Layout.NewFieldIsPastOthers | common/type_system/TypeSystem.cpp:862-919 | a field placed without an override starts at or after the end of every earlier field |
| Layout.CellsAreAligned | common/type_system/TypeSystem.cpp:1148-1236 | where embedded types were defined before, every cell at any depth, packed or misaligned, for every value of a variable index, is at a multiple of its own alignment |
| NaturalAlignment.AlignedExactly | common/type_system/TypeSystem.cpp:1148-1178 | on every table built by deftypes: all cells of all objects are aligned if and only if each embedded field's offset, stride and owner's start alignment are multiples of the alignment of every cell inside |
| NaturalAlignment.CellPath | common/type_system/TypeSystem.cpp:801-843 | to every cell inside a structure leads a path, at a multiple of its alignment if the fields inside suit |
| Deftypes.EveryRunKeeps | common/type_system/deftype.cpp:491-582 | whatever forms are processed, the table keeps its invariant: numbering, parents, kinds, fields that fit, are placed and known, methods, names declared ahead |
| Deftypes.TableOkFits | common/type_system/TypeSystem.cpp:41-104 | the invariant gives what the reverse lookup rests on |
| FormChecks.BuiltTables | common/type_system/deftype.cpp:491-582 | what every run gives, and what each check on forms adds: alignment and returning lookups, no early fields, no failing lookup |
| FormChecks.CheckedMeetsConditions | common/type_system/TypeSystem.cpp:1183-1236 | where all embedded types were defined first, the exact conditions for natural alignment and for returning lookups both hold |
| FormChecks.PassingRunLookups | common/type_system/TypeFieldLookup.cpp:521-533 | after a run that passes all checks, a load's hits are exactly the load paths to the offset asked for |
| BuiltinTypes.BuiltinTableOk | common/type_system/TypeSystem.cpp:924-1100 | the table of all 40 builtin types, with their fields, methods and the one name declared ahead, satisfies the invariant and all checks |
| BuiltinTypes.BuiltinsAreLaidOut | common/type_system/TypeSystem.cpp:1005-1097 | the fields of every builtin structure are where adding them one after the other puts them |
| BuiltinTypes.BuiltinsAreDeclared | common/type_system/TypeSystem.cpp:983-1097 | the methods of every builtin type are what declaring them one after the other gives it |
| BuiltinTypes.BuiltinTableStarts | common/type_system/TypeSystem.cpp:924-1100 | the three runs of `EmbeddingLimits` can start from it |
| MethodTables.IdsAreConsecutive | common/type_system/TypeSystem.cpp:1115-1131 | on every chain the ids of the methods that replace nothing are 1, 2, 3, ... up to the next free one |
| MethodTables.NameAgreesWithId | common/type_system/TypeSystem.cpp:624-754 | a name leads to the entry its id leads to, with an id below the next free one |
| MethodTables.IdAgreesWithName | common/type_system/TypeSystem.cpp:727-754 | an id is found if and only if it is below the next free one, and its name leads back to the same entry |
| MethodTables.ChildKeepsIds | common/type_system/TypeSystem.cpp:495-554 | a child sees every inherited name at its parent's id |
| MethodTables.DeclareKeeps | common/type_system/TypeSystem.cpp:495-554 | declaring a method keeps the table of methods in order, and the name is then found at the id returned |
| Subtyping.LcaBaseIsJoin | common/type_system/TypeSystem.cpp:1416-1465 | the base computed from the two paths to the root is the join of the bases in the subtype order |
| Subtyping.GetPathUpTree | common/type_system/TypeSystem.cpp:1416-1432 | the loop gives the path of the path function, or throws where that has none |
| Subtyping.CommonFromTheEnd | common/type_system/TypeSystem.cpp:1434-1465 | the loop from the roots down finds the last common name |
| Subtyping.TypecheckBaseTypes | common/type_system/TypeSystem.cpp:1362-1398 | the walk up from the actual type decides whether the expected one is above it |
| Subtyping.JoinIsUnique | common/type_system/TypeSystem.cpp:1470-1480 | two specs have one join |
| Subtyping.LcaIsJoin | common/type_system/TypeSystem.cpp:1470-1480 | the lowest common ancestor accepts both specs and lies below everything that accepts both |
| Subtyping.LcaCommutes | common/type_system/TypeSystem.cpp:1470-1480 | the order of the two specs does not matter |
| Subtyping.LcaAssociates | common/type_system/TypeSystem.cpp:1470-1503 | grouping does not matter |
| Subtyping.LcaIsIdempotent | common/type_system/TypeSystem.cpp:1470-1480 | the ancestor of a spec and itself is the spec, if and only if no part of it is a variadic function |
| Subtyping.LcaAllIsJoin | common/type_system/TypeSystem.cpp:1492-1503 | the vector form is the join of all |
| Subtyping.OrderDoesNotMatter | common/type_system/TypeSystem.cpp:1492-1503 | any rearrangement of the vector gives the same result |
| Subtyping.LowestCommonAncestor | common/type_system/TypeSystem.cpp:1492-1503 | the loop over the vector computes that function |
| Subtyping.AcceptsTransitive | common/type_system/TypeSystem.cpp:1293-1398 | the type check is transitive on plain specs |
| Subtyping.AcceptsAntisymmetric | common/type_system/TypeSystem.cpp:1293-1398 | specs that accept each other are equal |
| TypeSystemState.TypeObject.AddFieldToType | common/type_system/TypeSystem.cpp:862-919 | the object's fields, size and flags afterwards are those of the layout function, or it throws where that does |
| TypeSystemState.TypeObject.DeclareMethodHere | common/type_system/TypeSystem.cpp:495-554 | the method list afterwards is that of the method-table function |
| TypeSystemState.TypeSystem.AddType | common/type_system/TypeSystem.cpp:41-104 | the two maps afterwards are those of the table function; when a type is not what it was declared as, they hold the type and its declaration |
| TypeSystemState.TypeSystem.ForwardDeclareTypeAs | common/type_system/TypeSystem.cpp:134-190 | the same for forward declarations |
| TypeSystemState.TypeSystem.ParseDeftypeForm | common/type_system/deftype.cpp:491-582 | a whole deftype in place leaves the table the function gives, and on a throw the table it had reached by then |
| TypeSystemState.FormsChangeNoType | common/type_system/deftype.cpp:491-582 | no form changes a type that was there, thrown or not |
| ReadLaws.ReadUndoesPrint | common/goos/Reader.cpp:243-531 | reading the printed form of any readable object gives that object back under top-level |
| ReadLaws.LayoutReadsBack | common/goos/Reader.cpp:396-531 | so does any layout of its tokens with blanks and line breaks, quote marks included |
| ReadLaws.CharReadsBack | common/goos/Reader.cpp:736-760 | a character reads back if and only if its printed form lexes as one character token |
| ReadLaws.StringReadsBack | common/goos/Reader.cpp:553-608 | a string reads back if and only if it has no quote, no backslash and only source characters |
| ReadLaws.SymbolReadsBack | common/goos/Reader.cpp:536-548 | a symbol reads back if and only if its name lexes as one symbol token |
| GoosObjects.NumeralDenotes | common/goos/Object.cpp:100-110 | the numeral printed for a number is made of digits and denotes the number, in every base |
| TextStreams.ReadFromString | common/goos/Reader.cpp:177-228 | the stream reader, advancing one position in place, reads exactly what the reading function says |
| TextStreams.ReadListFrom | common/goos/Reader.cpp:396-531 | the list loop, in place, against the function, with the position behind the list |
| TextStreams.BinaryValue | common/goos/Reader.cpp:643-670 | the shift loop computes the value of the digits, and rejects exactly those of 65 significant bits and more |
| TextStreams.SymbolTable.Intern | common/goos/Object.h:389-402 | interning keeps all earlier symbols and adds at most one |
| TextStreams.SymbolTable.SameNameSameObject | common/goos/Object.h:389-402 | two names have the same object if and only if they are equal |
| Parens.ToksWellFormed | common/goos/PrettyPrinter.cpp:100-167 | the tokens of every object are balanced, and quote marks are followed by forms |
| PrettyList.TokenList.InsertNewlineAfter | common/goos/PrettyPrinter.cpp:230-246 | the list stays linked both ways with the tokens in order; one break is set, behind the quote marks, and no two separators are adjacent |
| PrettyList.TokenList.InsertNewlineBefore | common/goos/PrettyPrinter.cpp:250-266 | the same before the quote marks |
| PrettyPrinter.BreakList | common/goos/PrettyPrinter.cpp:271-289 | exactly the breaks of the list's own entries are set |
| PrettyPrinter.PropagatePretty | common/goos/PrettyPrinter.cpp:295-355 | lines and indentation are numbered as the breaks say, tokens and earlier breaks stay |
| PrettyLayout.EntriesAreBroken | common/goos/PrettyPrinter.cpp:271-289 | behind every entry of a broken list there is a break, so that no two share a line |
| PrettyBreaks.LinesRise | common/goos/PrettyPrinter.cpp:295-375 | line numbers never fall along the list, so a later line start is later in token order |
| PrettyBreaks.InsertBreaksAsNeeded | common/goos/PrettyPrinter.cpp:519-563 | for every token list and line length the loop ends, with the tokens linked and in order, all earlier breaks kept, and no line after the last one worked on holding a token past the limit |
| PrettyText.ToString | common/goos/PrettyPrinter.cpp:765-830 | whatever special breaks are set, the text is a layout of the object's tokens, and reads back as the object if that is readable |
| Dragonbox.ModularInverse | third-party/dragonbox.h:651-676 | the loop computes the inverse of an odd number modulo the word |
| Dragonbox.InverseDivides | third-party/dragonbox.h:700-704 | for every word, the product is at most the table's quotient if and only if the divisor divides, and is then the quotient |
| Dragonbox.BuildTable | third-party/dragonbox.h:680-697 | every entry of the table is as that needs |
| Dragonbox.DivisibleByPowerOf5 | third-party/dragonbox.h:700-704 | the test is divisibility |
| TrailingZeros.RemoveTrailingZeros | third-party/dragonbox.h:2818-2856 | for every nonzero 32-bit n the result is n divided by a power of ten, with a zero left exactly if 10^8 divides n |
| Crc.RegisterIsRemainder | common/util/FileUtil.cpp:175-192 | the shift register, bit by bit, holds the message polynomial's remainder modulo x^32 + 0x04c11db7 over GF(2) |
| Crc.RemainderIsUnique | common/util/FileUtil.cpp:175-192 | there is only one such remainder below 2^32 |
| Crc.TableStep | common/util/FileUtil.cpp:185-192 | one table step is eight steps of the register |
| Crc.InitCrc | common/util/FileUtil.cpp:175-183 | the table holds eight zero bits fed behind each byte |
| Crc.Crc32 | common/util/FileUtil.cpp:185-192 | the complement of the remainder, for every message |
| Adpcm.DecodeAdpcm | common/audio/audio_formats.cpp:39-107 | the decoding loop computes the decoding function, flags and predictor state included |
| Adpcm.DecodeUndoesEncode | common/audio/audio_formats.cpp:73-156 | for any blocks, filters and shifts with zero shift error, decoding the nibbles gives the samples exactly |
| Adpcm.EncodeBlockWithFilter | common/audio/audio_formats.cpp:123-140 | the deltas are the differences from the prediction |
| Adpcm.WidthIsLeast | common/audio/audio_formats.cpp:158-182 | the width is the least number of two's-complement bits that holds the value |
| Adpcm.GetMaxBits | common/audio/audio_formats.cpp:158-182 | the loops compute that width |
| Adpcm.ErrorBound | common/audio/audio_formats.cpp:141-156 | with no high bits lost, the error is at most the number of samples times (2^(12-shift) - 1) |
| Adpcm.NoErrorDivides | common/audio/audio_formats.cpp:141-156 | with no high bits lost, the shift error is zero if and only if all deltas are multiples of 2^(12-shift) |
| Adpcm.SelectShift | common/audio/audio_formats.cpp:240-280 | the search starts at the widest delta's shift, which keeps all high bits, and stops at the last one down from there that loses nothing; it ends below zero if and only if a delta needs more than 16 bits or all are multiples of 0x2000 |
| SmallVectors.SmallVector.CopyAssign | common/util/SmallVector.h:270-291 | the contents are the other's, which keeps its own; constructed slots are exactly the elements, each block has one owner |
| SmallVectors.SmallVector.MoveAssign | common/util/SmallVector.h:296-316 | the contents move, the other is left empty, and no block has two owners or is lost |
| SmallVectors.SmallVector.Reserve | common/util/SmallVector.h:415-431 | same contents in at least the room asked for; the old storage is left with no object |
| SmallVectors.SmallVector.ShrinkToFit | common/util/SmallVector.h:442-455 | same contents in the smallest storage |
| SmallVectors.SmallVector.PushBack | common/util/SmallVector.h:511-519 | the value denoted by the argument is appended if and only if the argument is no element or there was room |
| SmallVectors.SmallVector.Insert | common/util/SmallVector.h:471-501 | what is inserted for every argument, in place and growing, and how the slots stand where the object to copy is gone |
| SmallVectors.InsertIsRight | common/util/SmallVector.h:471-501 | exactly when that is what the caller means |
| SmallVectors.GrowingIsLinear | common/util/SmallVector.h:48-48 | n pushes move at most 3n elements, for every inline size |
| SmallVectors.PushMany | common/util/SmallVector.h:511-519 | a run of pushes moves what that function counts |
| CopyOnWrites.CopyOnWrite.Assign | common/util/CopyOnWrite.h:67-77 | counts stay the numbers of handles, objects are deleted exactly with their last handle, nothing is written |
| CopyOnWrites.CopyOnWrite.AssignValue | common/util/CopyOnWrite.h:67-77 | the handle has the other's value, and no other handle sees a change |
| CopyOnWrites.CopyOnWrite.Mut | common/util/CopyOnWrite.h:87-100 | the object to write to belongs to this handle alone, and is a new one exactly if it was shared |
| CopyOnWrites.CopyOnWrite.Write | common/util/CopyOnWrite.h:87-100 | a write is seen through no other handle |
| CopyOnWrites.CopyOnWrite.WriteKept | common/util/CopyOnWrite.h:87-100 | a write through a kept pointer is seen through exactly the handles that have the object, so through this one alone if and only if no other has |
| CopyOnWrites.CopyOnWrite.Destroy | common/util/CopyOnWrite.h:79-111 | the object goes if and only if this was its last handle |
| StripComments.StripCppStyleComments | common/util/json_util.cpp:10-71 | the state machine computes the piecewise function, and throws exactly where that has no result |
| CommentGrammar.StripIsTheGrammar | common/util/json_util.cpp:10-71 | the output is what the characters and strings of the text spell, for a text read as a row of characters, strings and comments |
| CommentGrammar.RejectedExactly | common/util/json_util.cpp:64-70 | a text is rejected if and only if it is no such row |
| CommentGrammar.StrippingTwice | common/util/json_util.cpp:10-71 | stripping again changes nothing |
| CommentGrammar.JsonRowExactly | common/util/json_util.cpp:10-71 | on a row of characters, comments and JSON strings, stripping goes by the strings if and only if none of them ends in an escaped backslash |
| CommentGrammar.BackslashIsRejected | common/util/json_util.cpp:10-71 | the JSON text of a single backslash is rejected |

## Left out

- Tags on type specs, register classes, `load_reg` and print strings; unit types appear in `CheckBase` as the source
  rewrites them, and the order laws are about specs without them.
- Fields of bitfield types, enums, and `reverse_field_lookup`'s scoring, which is over doubles.
- Forward-declared method counts, heap-base and flag assertions, and definitions allowed to replace earlier ones.
- 32-bit overflow of sizes and offsets in the type system.
- LookupCycles.LookupsReturnExactly: speaks of loads that no visible cell among the structures matches, and of
  structures among which no search fails. With matches the limit on hits ends a search that would go on, and a failure
  ends it with an exception. `LookupReturnsWithoutRing` needs neither.
- Deftypes.EveryRunKeeps: speaks of `declare-type` forms whose kind is a known structure. The source takes any name:
  after `(declare-type x object)` a field of type `x` is given four bytes, and a later deftype may make `x` a
  number of eight. With a known structure one step resolves a declared name, so `Resolve` does not loop.
- TypeSystemState.TypeSystem.AddType: leaves out the check against forward-declared method counts.
- NaturalAlignment.AlignedExactly: speaks of constant indices, which reach every element; `Layout.CellsAreAligned`
  speaks of variable indices as well.
- The depth of a search: the search function takes a bound, and says when it ran out.
- Values of decimal numbers: the reader keeps the text of a float.
- ReadLaws.SymbolReadsBack: a name with the form of a decimal number is a float here. Where `std::stod` finds it out of
  range (1 with 400 zeros and a point) the source reads it as a symbol, which then reads back.
- PrettyText.ToString: the special forms are an arbitrary sequence of breaks asked for before or behind tokens. The
  source follows null pointers there on some objects, as on a bare `begin` or a `cond` without cases, where the model
  gives a text.
- `specialIndentDelta`, which is always 0, the return value of `propagatePretty`, and the paren pointers of tokens that
  are no parens once the list is attached.
- Links from objects to the text they were read from, error messages, reading from files and the terminal, macros
  added by the user, environments, lambdas and evaluation.
- `build_list`'s patching of the last pair: lists are values here.
- Floats, shortest decimals and the 64-bit branch of dragonbox.
- `break_filter_ties`, wave files, and the binary reader around the ADPCM blocks.
- `SmallVector::clear`, `pop_back` and `resize`, iterators, and growth of counts past 2^53, where the factor 1.5 is
  computed in doubles.
- SmallVectors.SmallVector.Insert: where the object to copy is gone the model stops before the copy.
- SmallVectors.SmallVector.PushBack: where the object to copy is gone the model stops before the copy.
- Threads: `CopyOnWrite` counts without locks, and the model has one thread.
- JSON parsing around the comment stripper.
