# jk100: the MoonBit runtime, its core library, and the guard

jk100 is a Win32 file scanner written in MoonBit and C. What is hard in its repository is the MoonBit runtime and
core library it carries along. This project models six parts of it and proves what they are for.

- **heap/** The reference-counting heap. Objects have a packed 32-bit header word (two kind bits, a signed 30-bit
  count) and reference slots. `Runtime.DropObject` is the in-place traversal, which keeps its state in the headers and
  slots of dying objects; `Heap.Drop` is the naive recursive drop it is proved equal to. `Garbage` says what a drop
  frees without any order of visits. Blits, bulk count updates and constructions are methods on the same heap;
  `Runs` puts them together: callers own references, and over every run each dynamic count is in-degree plus owned.
- **utf/** The UTF-8 and UTF-16 transcoders, against definitions of the encodings that mention no decoder: section 3
  and 4 of RFC 3629, section 2 of RFC 2781, and the replacement of maximal subparts of section 3.9 of the Unicode
  Standard.
- **demangle/** The symbol demangler. `MangleGrammar` and `MangleSymbols` define mangled forms and renderings of type
  trees and symbols; `MangleReading` says what each parser reads; the class `Demangler` moves a cursor and is proved to
  do that. `MangleClauses` and `ManglePackages` say exactly which types and packages are read back; `MangleForms` and
  `MangleSymbolForms` are a grammar of everything that is taken for a symbol.
- **argparse/** The argument parser: edit distance and suggestions, positional allocation and its lookahead, global
  arguments over nested subcommands, and validation of option spellings over a command tree.
- **words/** Fixed-point products and the last rounding of the software square roots, leading and trailing zeros, ones,
  hexadecimal printing and reading of big integers, and their bitwise operations.
- **guard/** The polling loop of the guard over its table of known files.

A method that changes state is proved against a function of the old state; lemmas about those functions say what the
source promises. Members that follow one name through a parse take that name as a ghost parameter, so what they state
holds for every name.

## Where the code does not keep its promise

- **Blit from a shared source** (moonbit/lib/runtime.c:1954-1983). The slow path gives up the caller's reference to the
  source and the overwritten elements before it reads the source. With exact counts and both arrays owned this can free
  the source first: `Blit.SourceLost` is such a heap. `Blit.SourceSurvivesIff` says exactly when it does not happen, and
  `Blit.OwnedSourceSurvives` gives a condition a caller can see; `RefArrays.RefArrayBlit` requires survival only on
  that path.
- **Global counts below an idle level** (moonbit/lib/core/argparse/parser_globals_merge.mbt:147-158). A child that saw
  nothing is seeded with a set flag and a zero count. When such a child has a child of its own, the two markers merge to
  a zero total and the flag is cleared; the level above takes a cleared flag for a negated one and resets its count. So
  `root -v -v sub leaf` counts zero. `Globals.GlobalCount` says exactly when the total survives: some occurrence is at
  the deepest selected level or the one above it.
- **Raise clauses behind results** (moonbit/lib/runtime.c:1041-1047). A raise clause is taken by the innermost function
  type still open. That changes the text only when brackets have been closed behind that function type:
  `MangleClauses.ReadBackIff` gives the exact condition for every type, `MangleClauses.UnreadableIsMisread` says what is
  written instead, and `MangleSymbols.DemangleInvertsMangling` carries the condition over to whole symbols.
- **Greedy package counts** (moonbit/lib/runtime.c:885-898). The count of segments is read together with the length
  behind it, and on failure as one digit. `ManglePackages.PackageRoundTrip`: a package is read back exactly when it has
  fewer than ten segments and the two numbers read as one are not zero modulo two to the 32.
- **Negative zero** (moonbit/lib/core/bigint/bigint_nonjs.mbt:1618-1636 and 1798-1816). "And" and "exclusive or" drop the
  highest limb of a negative result, so `-FFFFFFFF & -80000000` and `-FFFFFFFF ^ 1`, digits in hexadecimal, are zeros
  with a negative sign (`BigIntBits.NegativeZero`). `BigIntBits.CombineIff` and `BigIntBits.WhoLoses` say exactly which
  operands lose it, that "or" never does, and that every other result is right. Such a zero prints as "0" and comes back
  positive; every other value keeps its sign (`BigIntHex.HexRoundTrip`).
- **A full table of known files** (lib/platform/cwrap.c:596-599). Paths that find no room are counted and checked again
  in every round; `Guard.CheckedOnceIff` says from the listings which paths these are.

## Model

| member | source | states |
|---|---|---|
| RcHeader.HeaderRoundTrip | moonbit/include/moonbit.h:115-147 | A header made from a kind and a count reads back both; the two raw-word comparisons decide exactly "at least one" and "at least two", and a static count is never dynamic |
| RcHeader.CountArithmetic | moonbit/include/moonbit.h:143-190 | Adding or subtracting the count unit moves the decoded count by one, keeps the kind bits and does not overflow below the 29-bit limit |
| RcHeader.SetCountReads | moonbit/include/moonbit.h:165-173 | A count written into a header is read back as written and leaves the kind bits alone |
| Layout.SlotInBounds | moonbit/lib/runtime.c:197-221 | Every flattened child number of a well-formed object names a slot inside the payload |
| Layout.SlotsApart | moonbit/lib/runtime.c:159-221 | Distinct child numbers, also of different elements of a value-type array, name slots that share no word |
| Layout.SlotsAreReferences | moonbit/lib/runtime.c:159-221 | The children are exactly the reference words that the meta word of the object names: the offsets of the table, every element of a reference array, and the offsets within every element of a value-type array |
| Layout.WriteChildView | moonbit/lib/runtime.c:331 | Storing the parent pointer through a child's slot changes that child and no other |
| Layout.WriteCountView | moonbit/lib/runtime.c:329-330 | Storing the child index in the count bits changes no child and not the number of children |
| RawHeap.SuspendView | moonbit/lib/runtime.c:329-332 | Saving index and parent in words of a heap of objects of any layout is, seen as children, the step the traversal is proved with |
| RawHeap.ReadView | moonbit/lib/runtime.c:303-310 | Reading header and slot from the words reads them from that view |
| RawHeap.DecrementView | moonbit/lib/runtime.c:325-327 | So is giving up one of several references |
| RawHeap.DiscardView | moonbit/lib/runtime.c:298-299 | So is giving an object's memory back |
| Runtime.Runtime.DropObject | moonbit/lib/runtime.c:223-348 | The in-place traversal terminates, touches only allocated objects and ends in exactly the heap and finalizer log of the naive recursive drop; it panics only if some object has more children than an index fits |
| Runtime.Runtime.VisitChild | moonbit/lib/runtime.c:313-345 | One round over a child keeps the invariant of the traversal: what is still to be done, read from the overwritten headers and slots, is what the recursive drop still has to do |
| Runtime.Runtime.Enter | moonbit/lib/runtime.c:324-342 | Descending suspends the object in its own header and slot, or frees it at once at its last child; either way nothing of the pending work is lost |
| Runtime.Runtime.BackToParent | moonbit/lib/runtime.c:297-310 | The index and the parent read back from the header and the slot are those of the innermost suspended object, whose slot gets its meaning back |
| Traversal.PendingTop | moonbit/lib/runtime.c:302-310 | Resuming the innermost suspended object picks up exactly the references it had left |
| Traversal.StepDescend | moonbit/lib/runtime.c:328-341 | Suspending an object and opening its child preserves the work the recursive drop has left |
| Traversal.StepTail | moonbit/lib/runtime.c:333-341 | The shortcut that frees an object before its last child preserves the work the recursive drop has left |
| Garbage.Accounting | moonbit/lib/runtime.c:313-345 | A surviving object loses exactly the references that went away with the freed ones, keeps everything else, and a static object loses nothing; a freed object had its count used up |
| Garbage.DeadIsClosed | moonbit/lib/runtime.c:223-348 | The freed objects are closed: whatever loses its last reference with them is freed as well |
| Garbage.DeadIsLeast | moonbit/lib/runtime.c:223-348 | They are the least such set: nothing is freed that is not forced to go |
| Garbage.FinalizedOnce | moonbit/lib/runtime.c:283-288 | A drop calls the finalizer of each freed external object exactly once and no other |
| Garbage.OrderIrrelevant | moonbit/lib/runtime.c:1957-1968 | Giving up the same references in another order ends in the same memory and calls the same finalizers |
| Conservation.ConservedRelease | moonbit/lib/runtime.c:350-366 | Where every dynamic count is in-degree plus owned references, giving up owned references is safe and keeps it so |
| RefArrays.IncrefObject | moonbit/lib/runtime.c:350-356 | Counts one more reference of a dynamic object and leaves a static one alone |
| RefArrays.DecrefObject | moonbit/lib/runtime.c:358-366 | Gives up one reference: the new heap is that of the naive release |
| RefArrays.RefArrayBlit | moonbit/lib/runtime.c:1937-1986 | Out-of-range calls panic; otherwise the fast path ends in the moving heap, the slow path in the sharing heap, the destination, if it is still there, holds the old range of the source in its order and its own old elements elsewhere, and counts stay exact with both arguments given up |
| Blit.MoveEqualsCopy | moonbit/lib/runtime.c:1952-1974 | Moving elements out of a source with count one and freeing only its container ends in the same live heap, with the same finalizers called, as counting, releasing, copying and dropping the source |
| Blit.SharedEqualsCopy | moonbit/lib/runtime.c:1975-1985 | The slow path means the same copying blit, although it gives up the source first |
| Blit.MoveBlitConserves | moonbit/lib/runtime.c:1952-1974 | The fast path is safe and keeps every count exact |
| Blit.SharedBlitConserves | moonbit/lib/runtime.c:1975-1985 | The slow path is safe up to the copy and keeps every count exact |
| Blit.MoveBlitWrites | moonbit/lib/runtime.c:1954-1974 | After the fast path a destination that is still there has its old length, the old elements of the range in their order in the slots of the blit, and its old elements in every other slot |
| Blit.SharedBlitWrites | moonbit/lib/runtime.c:1975-1985 | The slow path leaves the same in the destination, also when both are one array, and its source is as it was when it is read |
| Blit.SourceSurvivesIff | moonbit/lib/runtime.c:1979-1983 | The slow path reads a live source exactly when some set closed under losing the overwritten references leaves the source out |
| Blit.OwnedSourceSurvives | moonbit/lib/runtime.c:1979-1983 | A source its caller owns once more, or a static one, is still there when it is read |
| Blit.SourceLost | moonbit/lib/runtime.c:1954-1983 | A heap with exact counts and both arrays owned on which the slow path frees its source before copying from it |
| NewArrays.MakeRefArray | moonbit/lib/runtime.c:2157-2177 | A new array of copies of an owned reference, counted in one write; panics exactly as the bulk setter or a drop does; an empty one gives the reference up |
| NewArrays.CountCopies | moonbit/lib/runtime.c:2166-2172 | One owned reference becomes many in one write of the header, for dynamic objects only |
| NewArrays.UpdateRefValtypeRc | moonbit/lib/runtime.c:2322-2344 | Before a value is copied, each of its references is counted once more per extra copy, repeated references included; with no copy they are given up; it panics exactly when a count does not fit |
| NewArrays.MakeRefArrayWithBlit | moonbit/lib/runtime.c:2009-2059 | Allocating with a blit at a fresh address: a unique source is taken apart, elements of any other are counted; the new array holds the old range of the source in its order and the initial value everywhere else; counts stay exact, and the heap is the one that copying and giving up the source leaves |
| Taking.TakeEqualsCopy | moonbit/lib/runtime.c:2037-2057 | Taking the range out of the source, by moving or by counting, ends in the same heap, with the same finalizers called, as counting the range and then dropping the reference to the source |
| Taking.WithBlitEqualsCopy | moonbit/lib/runtime.c:2009-2059 | The same for the whole operation, initial value and new array included |
| Taking.WithBlitHolds | moonbit/lib/runtime.c:2009-2059 | The new array has the asked length, one owner, the old elements of the range at their place and the initial value in every other slot |
| Runs.StepConserves | moonbit/lib/runtime.c:350-366 | Each operation, called by the ownership convention, keeps every dynamic count equal to in-degree plus owned references |
| Runs.StepKeepsHeaders | moonbit/include/moonbit.h:143-190 | No operation changes a kind, frees a static object or changes its count |
| Runs.RunConserves | moonbit/lib/runtime.c:1937-2059 | Conservation over any sequence of increments, decrements, constructions, bulk updates, blits and allocations with a blit |
| Decode.DecodeOneSound | moonbit/lib/runtime.c:1600-1659 | A decoded scalar value is the one whose UTF-8 encoding (section 3 of RFC 3629) the consumed bytes are |
| Decode.DecodeOneComplete | moonbit/lib/runtime.c:1600-1659 | Every encoding is recognized, whatever follows it |
| Decode.WellFormedIff | moonbit/lib/runtime.c:1674-1691 | The strict decoder gets through a byte sequence exactly when it is a sequence of encodings |
| Decode.AdvanceIsMaximalSubpart | moonbit/lib/runtime.c:1704-1729 | The lossy decoder skips exactly the maximal subpart of an ill-formed sequence (section 3.9 of the Unicode Standard) |
| Decode.LossyReplaces | moonbit/lib/runtime.c:1694-1737 | Its output replaces every maximal subpart by U+FFFD, as the standard defines without any decoder |
| Decode.LossyUnique | moonbit/lib/runtime.c:1694-1737 | No other output replaces the maximal subparts, so the decoder computes the one the standard defines |
| Decode.LossyIsStrict | moonbit/lib/runtime.c:1694-1737 | On well-formed input both decoders agree |
| Decode.LossyFits | moonbit/lib/runtime.c:1694-1737 | The lossy decoder never writes more units than it reads bytes |
| Decode.StrictInverts | moonbit/lib/runtime.c:1674-1691 | Decoding undoes encoding of any sequence of scalar values |
| Encode.WellFormedIff | moonbit/lib/runtime.c:1759-1807 | The encoder gets through a unit sequence exactly when its surrogates are paired (section 2 of RFC 2781) |
| Encode.StrictInverts | moonbit/lib/runtime.c:1763-1781 | Reading surrogate pairs undoes writing them |
| Transcoder.DecodeStrict | moonbit/lib/runtime.c:1674-1691 | Writes the UTF-16 form of the decoded values, leaves the rest of the buffer alone, and returns the units written, or minus one and minus the offset of the first ill-formed byte |
| Transcoder.DecodeLossy | moonbit/lib/runtime.c:1694-1737 | Writes the UTF-16 form of the replaced text and leaves the rest of the buffer alone |
| Transcoder.EncodeUtf8 | moonbit/lib/runtime.c:1759-1807 | Writes the UTF-8 form and returns the bytes written, or minus one and minus the offset of the first unpaired surrogate |
| Transcoder.EncodeAfterDecode | moonbit/lib/runtime.c:1674-1807 | Decoding then encoding well-formed UTF-8 gives the same bytes, and both lengths were computed exactly |
| Transcoder.DecodeAfterEncode | moonbit/lib/runtime.c:1674-1807 | Encoding then decoding well-formed UTF-16 gives the same units, and both lengths were computed exactly |
| Sizes.Utf16LenFromUtf8 | moonbit/lib/runtime.c:1809-1825 | Adds up, byte by byte, the units each byte stands for |
| Sizes.Utf8LenFromUtf16 | moonbit/lib/runtime.c:1827-1837 | Adds up, unit by unit, the bytes each unit stands for |
| Sizes.UnitsExact | moonbit/lib/runtime.c:1809-1825 | On well-formed UTF-8 the pre-computed length is the number of units written |
| Sizes.BytesExact | moonbit/lib/runtime.c:1827-1837 | On well-formed UTF-16 the pre-computed length is the number of bytes written |
| Sizes.UnitsSuffice | moonbit/lib/runtime.c:1809-1825 | On any input a buffer of that length holds whatever the strict decoder writes before it stops |
| Sizes.BytesSuffice | moonbit/lib/runtime.c:1827-1837 | On any input a buffer of that length holds whatever the encoder writes before it stops |
| Demangler.Demangle | moonbit/lib/runtime.c:1401-1463 | The demangler with its cursor computes what the reading functions say, and gives back the name it does not understand |
| Demangler.Demangler.ParseTypeArg | moonbit/lib/runtime.c:1064-1129 | Reads one type, never moves the cursor back or past the end, and always terminates |
| Demangler.Demangler.ParseFnType | moonbit/lib/runtime.c:1016-1049 | Reads parameters, result and an optional raise clause |
| Demangler.Demangler.ParseTypeArgs | moonbit/lib/runtime.c:979-1014 | Reads bracketed type arguments and a raise clause, or a raise clause alone |
| Demangler.Demangler.ParseIdentifier | moonbit/lib/runtime.c:758-812 | Reads a length, that many characters, and undoes the escapes; fails when characters are missing or an escape is broken |
| Demangler.Demangler.ParseCounted | moonbit/lib/runtime.c:885-898 | Reads a count and its segments, first with every digit ahead taken for the count, then, from the same place, with one |
| Demangler.Demangler.ParsePackageSegments | moonbit/lib/runtime.c:814-839 | Reads so many identifiers and joins them with slashes |
| MangleReading.TypeArg | moonbit/lib/runtime.c:1064-1129 | A type that is read leaves strictly fewer characters ahead |
| MangleRoundTrip.DigitsOfDecimal | moonbit/lib/runtime.c:733-746 | Decimal digits are read as their number, modulo two to the 32, after whatever digits came before |
| MangleRoundTrip.IdentifierRoundTrip | moonbit/lib/runtime.c:758-812 | Every spelling of an identifier that is not empty and starts with no digit is read as its name, whatever follows |
| ManglePackages.PackageRoundTrip | moonbit/lib/runtime.c:841-899 | A package of any number of segments and the identifier after it are read back exactly when there are fewer than ten segments and the greedy number does not wrap to zero |
| MangleRoundTrip.CountedRoundTrip | moonbit/lib/runtime.c:885-898 | When the greedy number wraps to zero, the greedy reading succeeds with no segment and no identifier can follow |
| ManglePackages.ShortIsReadable | moonbit/lib/runtime.c:841-899 | With fewer than forty million encoded characters in the first segment, only the number of segments decides |
| ManglePackages.WrappedPackageIsMisread | moonbit/lib/runtime.c:885-890 | Four segments, the first of 294967296 characters, make the greedy number two to the 32 and are misread |
| ManglePackages.FewSegments | moonbit/lib/runtime.c:892-898 | From ten segments on, no reading of one digit's worth of segments is the package, whatever number is taken for the first length |
| ManglePackages.TenSegmentsAreMisread | moonbit/lib/runtime.c:885-898 | With ten segments the backtracking keeps the first digit of the count and reads the first segment as the whole package |
| MangleRoundTrip.TypeRoundTrip | moonbit/lib/runtime.c:911-1129 | A mangled type is read as its rendering and the cursor stops right behind it, in front of any text the type would not absorb |
| MangleSettle.ReadsSettled | moonbit/lib/runtime.c:1016-1049 | Every mangled type is read as the rendering of its settled form, in which a raise clause belongs to the innermost function type still open |
| MangleSettle.SettledIffFixed | moonbit/lib/runtime.c:1016-1049 | A type is its own settled form exactly when no raise clause follows a result that would take it |
| MangleSettle.SpellingDeterminesRendering | moonbit/lib/runtime.c:1064-1129 | Two mangled forms that agree as text are read alike and end at the same place |
| MangleClauses.ReadBackIff | moonbit/lib/runtime.c:1016-1049 | Every mangled type is read as its own rendering exactly when no raise clause follows a result in which brackets are closed behind the function type that takes it |
| MangleClauses.UnreadableIsMisread | moonbit/lib/runtime.c:1041-1047 | Otherwise the text read first differs where the rendering closes a bracket: there it has the blank of the raise clause |
| MangleClauses.BracketedResultIsMisread | moonbit/lib/runtime.c:1041-1047 | So every raise clause behind an array or option of an open function type is misread, whatever the error type and the text around it |
| MangleClauses.UnsettledYetReadBack | moonbit/lib/runtime.c:1041-1047 | A clause that moves past function results only leaves no trace, so being settled is not necessary |
| MangleClauses.SettledIsReadable | moonbit/lib/runtime.c:1016-1049 | A settled type is readable, so the round trip of settled types is a special case |
| MangleClauses.OpenSettled | moonbit/lib/runtime.c:1016-1049 | Which function types are still open behind a type, and past which brackets, does not depend on who takes which clause |
| MangleSymbols.TailReadBackIff | moonbit/lib/runtime.c:1202-1234 | Lifted and closure suffixes and type arguments, in any combination, are read back exactly when no raise clause in the type arguments moves past a bracket |
| MangleSymbols.DemangleInvertsMangling | moonbit/lib/runtime.c:1210-1463 | The demangler undoes the mangling of functions, methods, implementations, extensions, types and locals, with or without a leading dollar and whatever stands behind the dot, dollar or at-sign where the symbol stops, exactly when no raise clause in the type arguments moves past a bracket |
| MangleSymbolForms.ShownIsSymbol | moonbit/lib/runtime.c:1401-1463 | Conversely, whatever is shown differently from its name is an optional dollar, `_M0`, and a symbol of a grammar that relates mangled forms to shown texts and mentions no parser, shown as that grammar says, with nothing or a dot, a dollar or an at-sign behind it |
| MangleSymbolForms.OtherNamesUnchanged | moonbit/lib/runtime.c:1407-1411 | A name that begins with neither `_M0` nor `$_M0` comes back unchanged |
| MangleForms.ReadsType | moonbit/lib/runtime.c:1064-1129 | Whatever is read as a type is a mangled type of that grammar, and the text written for it is the one the grammar gives |
| MangleConcatenation.SpellIsPrefix | moonbit/lib/runtime.c:1064-1129 | The mangled form of a type stands in front of the rest of the text |
| MangleConcatenation.RenderIsSuffix | moonbit/lib/runtime.c:686-702 | The rendering of a type stands behind what is already written |
| EditDistance.Levenshtein | moonbit/lib/core/argparse/parser_suggest.mbt:66-103 | The two-row table computes the edit distance |
| EditDistance.ScriptExists | moonbit/lib/core/argparse/parser_suggest.mbt:66-103 | Some script of that many insertions, deletions and substitutions turns one string into the other |
| EditDistance.NoShorterScript | moonbit/lib/core/argparse/parser_suggest.mbt:66-103 | No script that turns one string into the other is shorter than the distance |
| EditDistance.Symmetric | moonbit/lib/core/argparse/parser_suggest.mbt:66-103 | The distance is symmetric |
| EditDistance.Triangle | moonbit/lib/core/argparse/parser_suggest.mbt:66-103 | It obeys the triangle inequality |
| EditDistance.ZeroIffEqual | moonbit/lib/core/argparse/parser_suggest.mbt:66-103 | It is zero exactly for equal strings |
| Suggest.SuggestName | moonbit/lib/core/argparse/parser_suggest.mbt:37-63 | The suggestion is the earliest closest candidate, and there is none exactly when every candidate is beyond the threshold |
| Positionals.TakesSum | moonbit/lib/core/argparse/parser_values.mbt:16-55 | Every value is taken, up to the sum of the maxima |
| Positionals.TakesWithinMaximum | moonbit/lib/core/argparse/parser_values.mbt:22-48 | No positional takes more than its maximum |
| Positionals.ServedIff | moonbit/lib/core/argparse/parser_values.mbt:22-48 | Enough values serve every positional its minimum, whatever their number, exactly when no optional single positional precedes one that needs a value |
| Positionals.NextPositional | moonbit/lib/core/argparse/parser_positionals.mbt:23-61 | The lookahead returns the positional whose run would hold the last value of one more, and none exactly when that value would overflow |
| Positionals.RemainingMinimum | moonbit/lib/core/argparse/parser_values.mbt:82-88 | Adds up the minima from a position on |
| Positionals.TakeMany | moonbit/lib/core/argparse/parser_values.mbt:22-53 | The allocation of one positional, shared by lookahead and assignment |
| Assign.AssignPositionals | moonbit/lib/core/argparse/parser_values.mbt:16-107 | From empty entries, with different names, each positional ends with as many values as its take, in their order on the command line and from argv, and all of them together are a prefix of the values; no other entry changes; the error names the first value beyond the capacity and is raised exactly when there is one |
| Globals.CountIsLost | moonbit/lib/core/argparse/parser_globals_merge.mbt:147-158 | Two occurrences at the top of a path of three levels end as a cleared zero count everywhere |
| Globals.GlobalCount | moonbit/lib/core/argparse/parser_globals_merge.mbt:135-222 | A global count flag given at least once and never negated ends with its total, from argv, at every level, exactly when it occurs at the deepest level or the one above; otherwise every level ends cleared |
| Globals.GlobalAppend | moonbit/lib/core/argparse/parser_globals_merge.mbt:56-105 | A global append option given at least once ends, at every level and any depth, with all values in argv order, from argv |
| SingleGlobals.GlobalSingle | moonbit/lib/core/argparse/parser_globals_merge.mbt:106-132 | A global option that takes one value is refused exactly when more than one is given on the whole path, and one value, wherever it is given, is the value at every level, from argv |
| SingleGlobals.GlobalSwitch | moonbit/lib/core/argparse/parser_globals_merge.mbt:135-187 | A global flag that is set or cleared ends at every level with what its last occurrence says, plain or negated, from argv |
| SingleGlobals.AbsentValue | moonbit/lib/core/argparse/parser_values.mbt:204-268 | An option that is not given takes the text of its variable, or else all of its defaults if it appends, or the last one |
| SingleGlobals.AbsentSwitch | moonbit/lib/core/argparse/parser_values.mbt:223-244 | A flag that is not given takes its variable for true or false by the eight texts that mean one, and any other text is refused |
| SingleGlobals.AbsentCount | moonbit/lib/core/argparse/parser_values.mbt:223-235 | A count that is not given is taken from its variable when the text is a count, with the flag set for a positive one, and any other text is refused |
| Matches.Matches.MergeGlobalValue | moonbit/lib/core/argparse/parser_globals_merge.mbt:56-132 | Merges the values of one name from the child, or refuses a single-valued option given at both levels; no other name changes |
| Matches.Matches.MergeGlobalCount | moonbit/lib/core/argparse/parser_globals_merge.mbt:142-173 | Merges a count from the child: sum, reset by a cleared flag, or choice by source |
| Matches.Matches.MergeGlobalFlag | moonbit/lib/core/argparse/parser_globals_merge.mbt:135-187 | Merges one flag from the child; no other name changes |
| Matches.Matches.SeedChild | moonbit/lib/core/argparse/parser_globals_merge.mbt:190-222 | The child starts from presence markers of what argv gave above, and from nothing else |
| Matches.Matches.MergeGlobalsFromChild | moonbit/lib/core/argparse/parser_globals_merge.mbt:225-242 | Each global not used for a local name of the child is merged, for every name |
| Matches.Matches.PropagateGlobals | moonbit/lib/core/argparse/parser_globals_merge.mbt:261-294 | The final values go down the whole path of selected subcommands |
| Matches.Matches.ApplyFlag | moonbit/lib/core/argparse/parser_values.mbt:276-290 | One occurrence of a flag: sets, clears or counts, from argv |
| Matches.Matches.GiveValue | moonbit/lib/core/argparse/parser_values.mbt:110-172 | One value of an option: appended, set, or refused the second time |
| Matches.Matches.ApplyEnv | moonbit/lib/core/argparse/parser_values.mbt:204-247 | The environment fills in what is absent and leaves alone what is present |
| Matches.Matches.ApplyDefaults | moonbit/lib/core/argparse/parser_values.mbt:250-268 | Defaults fill in what is still absent |
| Parser.ParseCommand | moonbit/lib/core/argparse/parser.mbt:332-609 | Parsing a path of nested subcommands leaves, at every level, the entries of a global that the per-name run of the path gives |
| Parser.Parse | moonbit/lib/core/argparse/command.mbt:105-112 | A whole parse: the outcome of global count flags, append options, single-valued options and set or cleared flags at every level, and the refusal of a second single value |
| Paths.RootGlobalIsOne | moonbit/lib/core/argparse/parser_validate.mbt:91-275 | On every path of subcommands in an accepted tree, with spellings looked up as the parser does, each global flag or option of the root meets what a parse takes for granted about it |
| Args.MergeGlobalDefs | moonbit/lib/core/argparse/parser.mbt:90-102 | Overriding definitions take the place of the inherited ones of the same name, others go behind |
| Args.FindMerged | moonbit/lib/core/argparse/parser.mbt:90-102 | The definition in force is the local one if there is one, else the inherited one |
| Args.MergedOnce | moonbit/lib/core/argparse/parser_validate.mbt:169-181 | Merging keeps a name from occurring twice |
| Validate.ValidationCtx.RecordArg | moonbit/lib/core/argparse/parser_validate.mbt:38-83 | An argument is recorded exactly when it shares neither name nor spelling, negated forms included, with those before it |
| Validate.CollectArgs | moonbit/lib/core/argparse/command.mbt:214-271 | Collecting succeeds exactly when all arguments are acceptable and apart from each other |
| Validate.CheckCollisions | moonbit/lib/core/argparse/parser_validate.mbt:202-275 | No collision is reported exactly when the argument shares no spelling with an inherited global of another name |
| Validate.CheckShadowing | moonbit/lib/core/argparse/parser_validate.mbt:117-166 | Inherited globals are redefined only compatibly, and no spelling is taken |
| Validate.ValidateCommand | moonbit/lib/core/argparse/parser_validate.mbt:91-114 | Validation succeeds exactly when every command of the tree passes |
| Validate.MakeCommand | moonbit/lib/core/argparse/command.mbt:46-85 | Without a build error every long spelling, with its negated form, and every short one denotes a single argument name at every command of the tree |
| Validate.ValidTreeIsUnambiguous | moonbit/lib/core/argparse/parser_validate.mbt:91-181 | Over a constructed tree that validates, each spelling has one meaning among inherited globals and local arguments at every command |
| Validate.LookupFindsName | moonbit/lib/core/argparse/parser_lookup.mbt:16-38 | The lookup maps lose nothing across names: looking a spelling up finds its name, and a negated form is never an option of another name |
| Validate.PositionalsAreValid | moonbit/lib/core/argparse/parser_validate.mbt:309-321 | Construction leaves only positionals the allocation results apply to |
| FixedPoint.Mul32Error | moonbit/lib/runtime_core.c:331-334 | No wrap, and an error of less than one unit, for all words |
| FixedPoint.Mul64Error | moonbit/lib/runtime_core.c:408-415 | No wrap in any partial sum, and an error of less than three units, for all words |
| FixedPoint.RoundSingle | moonbit/lib/runtime_core.c:386-396 | From an approximation within the stated error, the wrapped test on the two differences gives the integer nearest to the root, without a carry out of the significand |
| FixedPoint.RoundDouble | moonbit/lib/runtime_core.c:527-540 | From an approximation within the stated error, the wrapped test gives the double-precision integer nearest to the root, without a carry |
| FixedPoint.NearestIsUnique | moonbit/lib/runtime_core.c:529-532 | There is only one nearest integer |
| FixedPoint.NeverATie | moonbit/lib/runtime_core.c:529-532 | A root is never halfway between two integers |
| Bits.CountLeadingZeros32 | moonbit/lib/runtime_core.c:195-227 | Binary search and table lookup give 32 minus the bit length |
| Bits.CountLeadingZeros64 | moonbit/lib/runtime_core.c:229-237 | Binary search over 64 bits and the 32-bit count give 64 minus the bit length |
| Bits.LowestOne | moonbit/lib/runtime_core.c:256-263 | A word and its negative share exactly the lowest one |
| DeBruijn.CountTrailingZeros32 | moonbit/lib/runtime_core.c:251-270 | Multiplication and lookup count the zeros below the lowest one, all 32 for zero |
| DeBruijn.CountTrailingZeros64 | moonbit/lib/runtime_core.c:272-280 | Multiplication and lookup count the zeros below the lowest one of a double word, all 64 for zero |
| DeBruijn.NamesShift32 | moonbit/lib/runtime_core.c:265-269 | The table names every shift of the de Bruijn word |
| DeBruijn.NamesShift64 | moonbit/lib/runtime_core.c:273-279 | The table names every shift of the longer word |
| PopCount.PopCount32 | moonbit/lib/runtime_core.c:290-298 | The SWAR steps count the ones of every word |
| PopCount.PopCount64 | moonbit/lib/runtime_core.c:300-305 | The SWAR steps count the ones of every double word |
| PopCount.FieldsOfTwo | moonbit/lib/runtime_core.c:294 | After the first step every two-bit field holds its number of ones, in a word of any size |
| PopCount.FieldsOfFour | moonbit/lib/runtime_core.c:295 | After the second step every four-bit field does |
| PopCount.FieldsOfEight | moonbit/lib/runtime_core.c:296 | After the third step every byte does, with no carry between bytes |
| PopCount.MultiplyStep | moonbit/lib/runtime_core.c:297 | The multiplication adds the bytes up in the top one |
| BigIntHex.ToHex | moonbit/lib/core/bigint/deprecated.mbt:72-107 | Prints the sign, the highest limb without leading zeros and eight digits for every other |
| BigIntHex.FromHex | moonbit/lib/core/bigint/deprecated.mbt:128-173 | Succeeds exactly on an optional sign and at least one hexadecimal digit, and cuts the digits into limbs from the low end |
| BigIntHex.HexTextReads | moonbit/lib/core/bigint/deprecated.mbt:72-107 | The printed text is well formed and has the sign and the number of the value |
| BigIntHex.HexTextShape | moonbit/lib/core/bigint/deprecated.mbt:72-107 | It has letters of the chosen case only and no leading zero, and a zero is "0" |
| BigIntHex.ParsedNumber | moonbit/lib/core/bigint/deprecated.mbt:128-173 | Any digits, with leading zeros or in either case, are read as their number, and the limb invariant holds |
| BigIntHex.NormalizedIsUnique | moonbit/lib/core/bigint/bigint_nonjs_wbtest.mbt:52-79 | Limbs that meet the invariant are determined by their number |
| BigIntHex.HexRoundTrip | moonbit/lib/core/bigint/deprecated.mbt:72-173 | Reading what was printed gives the same limbs, length and sign, except that zero comes back positive |
| BigIntBits.Combine | moonbit/lib/core/bigint/bigint_nonjs.mbt:1571-1816 | The loops of "and", "or" and "exclusive or" compute the limbs of both operands in two's complement, combine them, and go back without the highest limb |
| BigIntBits.CombineIff | moonbit/lib/core/bigint/bigint_nonjs.mbt:1571-1816 | For operands that meet the limb invariant, negative zeros included, the result is that of the operation on the numbers, bit by bit, exactly when the highest limb is not lost; then zero is positive, and otherwise the result is a negative zero |
| BigIntBits.WhoLoses | moonbit/lib/core/bigint/bigint_nonjs.mbt:1618-1636 | "And" loses the limb when both numbers are below zero and their limbs share no one, "exclusive or" when just one is and their limbs are the same, "or" never |
| BigIntBits.OfSigned | moonbit/lib/core/bigint/bigint_nonjs.mbt:1609-1611 | Combining limb by limb, with the sign limbs for ever behind, is combining the numbers |
| BigIntBits.ThreeTexts | moonbit/lib/core/bigint/deprecated.mbt:128-173 | The operands of the two examples are read from text |
| BigIntBits.NegativeZero | moonbit/lib/core/bigint/bigint_nonjs.mbt:1618-1636 | "And" of two of them, and "exclusive or" of two of them, is a negative zero |
| BigIntBits.MinusLimb | moonbit/lib/core/bigint/bigint_nonjs.mbt:1618-1636 | The true results are both minus two to the 32 |
| Guard.ChecksOfPath | lib/platform/cwrap.c:589-599 | For every path and every run: never checked if known, once at its first listing if the paths known and newly listed before leave room, at every listing if they do not |
| Guard.CheckedOnceIff | lib/platform/cwrap.c:671-690 | A path is checked at most once exactly when it is known at the start, listed at most once, or first listed while known and earlier new paths number fewer than ten thousand |
| Guard.FindsRoomIff | lib/platform/cwrap.c:596-599 | A listed path ends up in the table exactly when known and earlier new paths number fewer than ten thousand |
| Guard.FullTableChecksAgain | lib/platform/cwrap.c:596-599 | Behind a baseline of ten thousand paths a new path listed twice is checked twice |
| Guard.RoomForAll | lib/platform/cwrap.c:585-599 | While known and new paths fit in the table, every listed path ends up in it, and there are as many checks as new paths |
| Guard.FirstListing | lib/platform/cwrap.c:658-690 | The first event of a path is in the first round that lists it |
| Guard.GuardChecksOnce | lib/platform/cwrap.c:632-700 | While baseline and new paths number at most ten thousand, each path outside the baseline is checked exactly once, in the first round that lists it |
| Guard.BaselineCutOff | lib/platform/cwrap.c:634-638 | A baseline beyond ten thousand paths is cut off there |
| Guard.Guard.IsKnownFile | lib/platform/cwrap.c:589-594 | Finds a path exactly when it is in the table |
| Guard.Guard.AddKnownFile | lib/platform/cwrap.c:596-599 | Appends to the table, or does nothing when it is full |
| Guard.Guard.Poll | lib/platform/cwrap.c:671-690 | One round: the new files counted, the threats among them, and the table afterwards |
| Guard.Guard.Start | lib/platform/cwrap.c:610-715 | The whole guard: the new-file total is the number of checks, which is the number of new paths while they fit, and the threat total the number of checks that matched |

## Left out

- Runtime.Runtime.DropObject: user code in finalizers is a log entry, so finalizers that touch the heap are not covered.
- Heap.Drop: frees an object before its children where the traversal may free it after them; the two orders are compared at the end of the drop, not in between.
- NewArrays.MakeRefArrayWithBlit: the requirement that the range lies inside both arrays is the caller's in the source as well, where nothing checks it; negative lengths are not modelled.
- RefArrays.RefArrayBlit: offsets and lengths are natural and their sums unbounded. A sum that wraps around 32 bits, and a negative length, which passes the bounds test and reaches `memcpy` as a huge size, are not modelled.
- Layout.SlotInBounds: the number of children is unbounded; the source multiplies array length and references per element in 32 bits.
- Runtime.Runtime.Enter: works on children as a sequence; `RawHeap` shows each of its reads and writes to be one on payload words, but the loop itself is not repeated on words.
- Malloc failure, and which address the allocator returns: any unused address may come back.
- The optional overflow check on single increments: increments are modelled where the count fits.
- Transcoder.DecodeStrict: the source bytes are a sequence and only the destination is an array, so a source that overlaps the destination is not modelled; the branch that uses the simdutf library is not part of this model.
- Demangler.Demangler.ParseTypeArg: text is passed in and returned instead of growing in a buffer, and running out of memory is left out; the loop over types, written three times in the source, is one method.
- ManglePackages.PackageRoundTrip: identifiers that are empty or start with a digit have no unambiguous mangled form and are not spelled.
- Parser.ParseCommand: argv is given as the occurrences each level sees, so splitting tokens, help, version and unknown arguments are left out, as are positional values, groups and the checks after the defaults, which only raise errors.
- Parser.Parse: as for Parser.ParseCommand; that every accepted command tree meets its condition on globals is `Paths.RootGlobalIsOne`.
- Matches.Matches.ApplyEnv: which texts are counts is a parameter, because the number parser is not part of this model.
- Suggest.SuggestName: strings are sequences of Unicode characters, and only the threshold counts UTF-16 units.
- Validate.MakeCommand: checks on groups, requirements, subcommand names, help and version are one flag that can only add errors; the inherited-name test in the recording step is left out because its set is always empty.
- Assign.AssignPositionals: the label in the error message is left out.
- FixedPoint.RoundSingle: the error bound of the approximation is a hypothesis, as the comment in the source states it; the lookup table, the iterations, subnormal inputs, the exponent field and the last addition, which only raises the inexact flag, are left out.
- FixedPoint.RoundDouble: as for single precision.
- DeBruijn.CountTrailingZeros32: negation of the smallest signed word is taken as wrapping.
- BigIntHex.ToHex: sizes of string builders are left out.
- BigIntBits.Combine: the loops, written three times in the source, are one method with the operator as a parameter, and words are combined bit by bit.
- Guard.Guard.Start: a round is the list of paths it enumerates, and the verdict on a path in a round is a parameter; directory enumeration, clocks, printing and the stop flag are left out.
- The remaining runtime (files, clocks, environment, printing, stack traces, SIMD helpers), the JavaScript variants, help rendering, the user interface, the quarantine and hashing stubs, the PE parser and the scanner client: input and output, or nothing to prove.
