# goifc in Dafny

A model of goifc's STEP parser and of the discrete core of its geometry package, with
proofs. `dafny verify dfyconfig.toml` checks the whole project. One module a file.

The model keeps the source's form. The parser, the scanner, the grid, the occupancy slice,
the cache build and the budget are classes whose methods update fields and arrays in place;
loops are loops. Each is proved against a specification written independently of it (a
reading of the token stream into trees, a list comprehension, reachability, an even-odd
fill, an uncached evaluation), and the laws are then proved of the specification.

## What is modelled

**Parsing** (`StepLexer`, `StepGrammar`, `StepSlab`, `StepParser`, `StepChunks`, `StepFile`,
`StepHeader`). A reference reading turns bytes into header records, instances with argument
trees, and record starts. The parser builds handles into slabs on a stack, and is proved to denote that
reading, failures and their offsets included. A chunked parse, with any guessed boundaries
and with workers finishing in any order, is proved to answer only with what the serial
reading finds.

**The written format** (`StepWords`, `StepScript`, `StepForms`, `StepDocuments`,
`StepWritten`, `StepPrint`). What the reference reading reads, said without it: words as
literal text, forms as words, sections as forms, each with what it means. A file is read if
and only if it is written so, and then as what it means; and a printer from content to bytes
is undone by reading.

**Indexes and traversal** (`StepIndex`, `StepPaths`, `StepRefs`, `StepGraph`,
`StepTraverse`). The counting-sort indexes are filled by ranges whose writes interleave
arbitrarily, and hold one entry for each place a reference stands in an attribute, in order.
The bounded traversal computes exact shortest-distance closures.

**Triangulation, shells, volume** (`GeoBudget`, `GeoTriangulate`, `GeoManifold`, `GeoShell`,
`GeoSolid`, `GeoVolume`, `GeoProfile`). Signed area and directed edges are conserved along an
ear-clipping run; the extruded shell is closed exactly when stated below; the volume of an
accepted mesh does not depend on the origin and is area times height for a prism, scaled by
its placement.

**Simple polygons** (`PolyWinding`, `PolySimple`, `PolyCorner`, `PolyEars`, `PolySplit`,
`PolyTwoEars`, `PolyClip`). Winding numbers by exact crossing, and from them: every simple
polygon has ears enough, so clipping one never stalls, and its triangles tile it.

**Concurrent meshing** (`GeoMeshing`, `GeoDrawing`, `GeoBuild`, `GeoMeshLaws`). Workers, an
atomic counter and nested once-cells form a state machine. Every schedule ends, none
deadlocks, and all give the meshes of uncached serial meshing, which are what the elements'
items draw, side by side. Budgets obey the documented shares.

**Planar regions** (`PlanarBoundary`, `PlanarGrid`, `PlanarSplit`, `PlanarSweep`,
`PlanarFill`, `PlanarStitch`, `PlanarFaces`, `PlanarTurns`, `PlanarSquares`, `Sorting`).
Closed boundaries and their repair, the grid that never loses a candidate, cutting edges at
crossings, the sweep against the even-odd fill and the fill against winding, and half-edge
walking: independent of map order, never at a dead end, and by cross products the sharpest
left turn at every vertex, for any angle function.

**Nesting loops** (`PlanarTouch`, `PlanarInside`, `PlanarCuts`, `PlanarArea`,
`PlanarLaminar`, `PlanarRings`, `PlanarNesting`). Which edges cross or overlap within the
quantum, point and ring containment as winding parity, and why the loops of an outline nest:
a polygon's area is summed over vertical slabs from its winding, so an inner loop is
smaller, and containment of loops that at most touch is a forest.

**Occupancy, facing, import** (`GeoOccupancy`, `GeoFacing`, `ImportTree`, `StoreyPlans`).
Flood fill is reachability; the worker pool keeps its memory ceiling and merges like the
serial run; the import order, the parent walk and the storey bands.

`Common` holds small shared definitions.

## Where the code and its promises differ

- An extruded profile whose vertices weld to distinct keys gives a closed mesh if and only
  if the profile is clean, it is not clockwise, and clipping comes down to one triangle
  (`GeoSolid.ExtrudedClosedIff`). Clean means that consecutive points, and points two apart,
  differ by more than the clean-up tolerance on some axis, all the way round. Profiles are
  wound counter-clockwise as they are read, and clipping a simple profile never stalls, so
  for simple profiles being clean decides alone (`GeoProfile.ExtrudeProfile`). A simple
  profile that is not clean can be accepted and give an open mesh
  (`GeoProfile.AcceptedAndOpen`).
- "A parent always precedes its child" holds throughout the import order if and only if no
  id is on or below a parent cycle (`ImportTree.ParentsFirstIffAcyclic`); of two ids that are
  each other's parent no order has both parents first
  (`ImportTree.TwoCycleNeverParentsFirst`). The rooted part always has parents first, and
  the rest are exactly the ids on or below a cycle (`ImportTree.TopoOrder`).
- The walk to a node's storey does not end on a parent cycle that holds no storey
  (`StoreyPlans.TwoCycleNeverHalts`); it ends if and only if it does not come to one node
  twice with no storey on the way (`StoreyPlans.HaltsIffNotRound`).
- In a file that repeats an id, "distinct instances" are distinct ids. A reference list's
  referrers are all listed if and only if no two of them share an id
  (`StepRefs.InverseCompleteIff`), and a traversal finds the whole closure of its start if
  and only if the closure holds no other instance with the start's id
  (`StepTraverse.ClosureIff`), which a start found by its id never meets
  (`StepTraverse.HolderMeetsNone`).

## Conventions

Coordinates are exact reals and the weld is an integer key per axis. A polygon is simple
when its vertices differ and its edges meet only at shared ends. Bytes are characters.
String unescaping (section 7.3.4 of ISO 10303-21) and number conversion are arbitrary
functions shared by both parse paths; unescaping is taken never to lengthen a literal, which
every escape sequence of that section satisfies. Inputs are shorter than 2^32 bytes, chunks
are at least a byte, and there are fewer than 65535 workers, so that offsets and slab numbers
fit their fields. Concurrency is a state machine: at each turn an arbitrary worker that can
move does. Arc tangent, vector length and unit directions are parameters, so the results
hold for whatever the machine computes; which way a walk turns is said of every arc tangent
that orders directions by their angle. Where the code iterates over a map, the model takes
the entries in arbitrary order.

## Model

| member | source | states |
|---|---|---|
| StepLexer.Span | step/scanner.go:183-190 | a scanning run is maximal: every byte in it is of the class, and the byte after it, if any, is not |
| StepLexer.Trivia | step/scanner.go:158-181 | skipping stops at a byte that is neither blank nor a comment opener, or at the end of input |
| StepLexer.LexAt | step/scanner.go:109-149 | a token consumes at least one byte and its text is no longer than what it consumed; it is a reference exactly when it starts with '#', and then its text is digits |
| StepLexer.Lex | step/scanner.go:105-149 | end of input is reported exactly when only trivia is left; every other token makes progress |
| StepLexer.TriviaIdempotent | step/scanner.go:160-181 | skipping trivia twice is skipping it once |
| StepLexer.LexAfterTrivia | step/scanner.go:109-149 | a scanner that has already skipped trivia reads the same token, so a cut where trivia ends is invisible |
| StepLexer.Scanner.constructor | step/scanner.go:86-88 | a new scanner stands at offset 0 of its input |
| StepLexer.Scanner.SkipTrivia | step/scanner.go:160-181 | the position moves to the end of blanks and comments, an unterminated comment running to the end of input |
| StepLexer.Scanner.ScanString | step/scanner.go:192-213 | the literal runs to the first apostrophe not doubled, or to the end of input; the quotes are not part of the text |
| StepLexer.Scanner.ScanBinary | step/scanner.go:215-226 | the literal runs to the next double quote or the end of input |
| StepLexer.Scanner.ScanEnum | step/scanner.go:228-252 | an enumeration stops at a point or at a delimiter it does not consume; T, F and U alone are booleans |
| StepLexer.Scanner.ScanNumber | step/scanner.go:254-285 | sign, digits, points and signed exponents are consumed, and any point or exponent makes it a real |
| StepLexer.Scanner.Next | step/scanner.go:105-149 | the scanner object reads exactly the pure token function's token and ends at its position |
| StepGrammar.UpperIdempotent | step/parse.go:100-111 | upper-casing an upper-cased keyword changes nothing, which lets one map hold both spellings |
| StepGrammar.ParseUint32 | step/argparse.go:127-148 | the hand-written digit loop agrees with the general unsigned 32-bit decimal reading on every input: empty, long, non-decimal and overflowing ones included |
| StepGrammar.JoinAssociative | step/resolve.go:20-37 | joining three stretches' contents does not depend on grouping, part-type overrides included |
| StepGrammar.ThenThen | step/parallel.go:70-71 | prefixing what is read next by two contents is prefixing by their join, failures included |
| StepSlab.SlabRefParts | step/value.go:77-89 | a handle's slab number and offset come back out of its word |
| StepSlab.DenoteGrown | step/argparse.go:32-47 | appending to a slab never changes the tree an existing handle stands for |
| StepSlab.StrsAppended | step/argparse.go:42-47 | appending text keeps a slab well formed |
| StepSlab.ListClosed | step/argparse.go:32-40 | closing a list keeps every handle pointing strictly below itself, and the new range denotes what its members denoted on the stack |
| StepSlab.ReadBack | step/value.go:91-117 | Str and List read back the tree the handle denotes, and every member ends strictly below its parent |
| StepSlab.WalkIsTreeRefs | step/resolve.go:201-212 | walking handles terminates and visits exactly the references the denoted tree spells, in order |
| StepSlab.RangeIsTreesRefs | step/value.go:155-162 | the same for a run of values: the walk over the slab is the walk over the trees |
| StepPaths.TreeRefsExact | step/resolve.go:201-212 | the references of a tree are exactly the ids that stand in it at some path through lists and typed values, one entry a path, in the order of the paths |
| StepPaths.SpelledIsListed | step/value.go:155-162 | an id is among a tree's references exactly when the tree spells it at some path |
| StepParser.AboveTwice | step/argparse.go:10-30 | handles pushed in two goes denote the two readings back to back, the stack below untouched |
| StepParser.ScalarHandle | step/argparse.go:51-89 | a scalar token's handle carries the tree its token spells, and fails exactly when the token's text does not convert |
| StepParser.RecordAdded | step/parse.go:304-317 | registering an instance appends exactly one record to what the parser has found |
| StepParser.Parser.constructor | step/parse.go:74-87 | a new parser has found nothing and stands where its stretch begins |
| StepParser.Parser.InternType | step/parse.go:95-111 | interning is invisible: the result is the upper-cased keyword |
| StepParser.Parser.CloseList | step/argparse.go:32-40 | the stack above the mark moves to the end of the slab, the handle denotes exactly those values, and nothing found before changes |
| StepParser.Parser.Str | step/argparse.go:42-47 | the text is appended and its handle reads it back |
| StepParser.Parser.ParseArgs | step/argparse.go:10-30 | on success the old stack is kept and exactly the list's values, as the reference reading spells them, are pushed; success and final position agree with the reading on every input |
| StepParser.Parser.PushValue | step/argparse.go:49-125 | one value is pushed, denoting the reference reading's tree; failure and position agree with it |
| StepParser.Parser.PushScalar | step/argparse.go:54-88 | the values that carry no slab data |
| StepParser.Parser.PushText | step/argparse.go:64-101 | a text value is stored in the arena and pushed |
| StepParser.Parser.PushList | step/argparse.go:102-107 | a nested list collapses to one handle denoting the whole list |
| StepParser.Parser.PushTyped | step/argparse.go:108-119 | a typed value collapses to one handle whose keyword and arguments read back apart |
| StepParser.Parser.CloseTyped | step/argparse.go:114-123 | the keyword and its arguments are closed together under one handle that denotes the typed value |
| StepParser.Parser.Register | step/parse.go:304-317 | exactly one record, with the list's trees and its part types, is added to what was found, and the stack returns to its mark |
| StepParser.Parser.ParseInstance | step/parse.go:229-249 | a record is read, or refused at the same offset, as the reference reading says |
| StepParser.Parser.FinishSimple | step/parse.go:251-266 | a simple instance's rest |
| StepParser.Parser.FinishComplex | step/parse.go:268-302 | a complex instance is its first part's type with the parts' attributes concatenated; an empty one is refused |
| StepParser.Parser.PartsLoop | step/parse.go:275-293 | the parts' keywords and, back to back on the stack, their attributes |
| StepParser.Parser.ParseHeaderRecord | step/parse.go:156-172 | one header record is added, its arguments closed in the slab |
| StepParser.Parser.ParseRecords | step/parse.go:205-227 | records are read to ENDSEC, stray semicolons skipped, everything else refused |
| StepParser.Parser.ParseChunk | step/parallel.go:74-95 | whole records until trivia ends exactly at the next chunk's start; running past it or not starting with a record is refused |
| StepParser.Parser.ParseData | step/parse.go:196-203 | the DATA section |
| StepParser.Parser.ParseDocument | step/parse.go:113-154 | the document's sections in order, stopping after "DATA;" when asked to; found contents, stop flag, verdict and position are the reference reading's |
| StepFile.FlattenStrings | step/parse.go:332-354 | the recursion over handles yields the strings of the denoted tree, in order, other members as empty |
| StepFile.HeaderTopLevelStrings | step/parse.go:319-330 | one string a top-level argument, positions kept |
| StepFile.DecodeHeader | step/parse.go:174-194 | decoding a header record through its slab depends only on the trees it denotes |
| StepFile.Finish | step/resolve.go:20-42 | joining the parsers' slabs denotes the join of what each found: instances in file order, part types with later ids winning, header records in order |
| StepFile.InstsJoined | step/resolve.go:26-29 | adding one more parser's slab and instances leaves the earlier instances' trees alone and appends its own |
| StepFile.ParseSerial | step/parse.go:40-52 | the serial parse returns a file denoting the reference reading, or fails at the reading's error offset |
| StepFile.NextRecord | step/parallel.go:117-133 | the guess is the '#' after the first ';' at or past the offset that blanks separate from one |
| StepFile.GuessRises | step/parallel.go:117-133 | a later search never guesses an earlier record |
| StepFile.OneMoreGuess | step/parallel.go:97-115 | one more share keeps the boundaries the shares' guesses so far, each once, in order |
| StepFile.SplitRecords | step/parallel.go:97-115 | the cut: the section's start, the guesses at every even share in order and without repeats, the input's end; each guess is a '#' and there are at most as many parts as workers |
| StepFile.RunChunk | step/parallel.go:49-62 | one worker's parser holds its chunk's isolated reading and succeeds exactly when that reading does |
| StepFile.RunWorkers | step/parallel.go:44-64 | whatever order the workers finish in, every slot holds its own chunk's parser and verdict |
| StepFile.RunChunks | step/parallel.go:64-70 | the cut is accepted exactly when every chunk's isolated reading succeeds |
| StepFile.ParseParallelN | step/parallel.go:28-72 | it is tried exactly when there are two workers, bytes for two chunks and a head that reads up to the section, and then on the splitRecords cut of what follows that head; it answers exactly when that cut has an inner boundary and is acceptable; then the serial reading succeeds too, the file denotes it, and every inner boundary is the start of one of the serial run's records |
| StepFile.ParseBytes | step/parse.go:25-38 | whichever path ran, the outcome is the reference reading's, down to the error offset |
| StepFile.SameContentSameFile | step/parallel.go:14-27 | files of the same content have the same header, instance trees and part types, however their slabs are cut |
| StepHeader.TextsFlatten | step/parse.go:332-354 | a list of texts gives those texts, in order |
| StepHeader.FlattenExact | step/parse.go:332-354 | lists laid end to end give their texts end to end, an inner list gives its own in its place, and what is neither gives an empty text when listed and none by itself |
| StepHeader.HeadExact | step/parse.go:174-194 | each part of the header is what the last record that gives it says, and empty when none does |
| StepWords.WordReads | step/scanner.go:109-149 | every word spelled as the format has it, one literal character a mark, digits after a hash, apostrophes doubled, an exponent signed, is scanned as that word, when what follows cannot be taken for more of it |
| StepScript.PieceRead | step/scanner.go:105-181 | blanks and comments before a word are skipped, and the scanner comes to stand right behind the word |
| StepScript.PieceOf | step/scanner.go:105-181 | whatever the scanner reads is such a gap and such a word, but for a string or a binary that the end of input cuts off |
| StepForms.ReadArgs | step/argparse.go:10-125 | a list written as values, commas and a closing mark is read as those values, nested lists and typed values included |
| StepForms.FormsOf | step/argparse.go:10-125 | and every list that is read is written so |
| StepDocuments.ReadDocument | step/parse.go:113-172 | a document written as instances, header lines, banners and DATA sections is read as what they say, a complex instance as its first part with all parts' attributes |
| StepDocuments.DocumentOf | step/parse.go:113-172 | and every document that is read is written so |
| StepWritten.WrittenIsRead | step/parse.go:33-72 | a file written in gaps and words, which is defined without the scanner or the grammar, is read, and its content and record offsets are what it means |
| StepWritten.ReadIsWritten | step/parse.go:33-72 | and a file that is read is written so: with the row above, reading succeeds exactly on written files |
| StepPrint.PrintedIsRead | step/parse.go:33-72 | round trip: printing header records, instances with their trees, and part types, and reading the bytes, gives them back |
| StepChunks.ChunkIsPrefix | step/parallel.go:74-95 | a chunk that reads cleanly in isolation is a prefix of the record run it was cut from |
| StepChunks.TailAfterChunk | step/parallel.go:49-62 | reading on from a clean chunk's start is that chunk, then reading on from its end |
| StepChunks.ChunksThenRest | step/parallel.go:44-63 | the section read whole is its first i chunks read in isolation, then the rest from chunk i's start |
| StepChunks.ChunksJoin | step/parallel.go:44-71 | for any cut whose chunks all read cleanly, the joined contents are what one uninterrupted reading finds |
| StepChunks.HeadThenTail | step/parallel.go:34-39 | stopping at "DATA;" and reading the section afterwards loses nothing, also when the section fails |
| StepChunks.NeverAtData | step/parse.go:129-136 | an unstopped reading never reports a stop |
| StepChunks.CutEqualsSerial | step/parallel.go:28-72 | the law of the parallel parse: an accepted cut's bytes are read serially too, with the head's and the chunks' contents joined in order |
| StepChunks.FirstStart | step/parallel.go:97-115 | a chunk that begins at a '#' begins with that record |
| StepChunks.BoundariesAreRecordStarts | step/parallel.go:74-77 | every inner boundary of an accepted cut is a record start of the serial reading, so never inside a string or a comment |
| StepIndex.StretchesDisjoint | step/resolve.go:142-146 | stretches of different (target, range) pairs never share a cell |
| StepIndex.KeyList | step/resolve.go:172-182 | a target's prefix-sum span over the first g ranges is as long as its list in their concatenation |
| StepIndex.CountRanges | step/resolve.go:152-168 | each range's count per target is how often that target occurs in the range; unresolved references are not counted |
| StepIndex.PrefixSums | step/resolve.go:172-183 | every count becomes its range's write offset: the sum over earlier targets and, within the target, earlier ranges |
| StepIndex.WriteNext | step/resolve.go:185-198 | one write by one range extends that range's own stretch and keeps every other range's finished cells |
| StepIndex.Fill | step/resolve.go:185-198 | however the ranges' writes interleave, each target's cells end up holding its list in source order |
| StepIndex.StretchesJoin | step/resolve.go:142-146 | stretches side by side hold the concatenated ranges' list |
| StepIndex.CountTypes | step/resolve.go:114-120 | a range's count per type |
| StepIndex.GrowSlices | step/resolve.go:123-129 | each type's slice grows by the range's count and the range's offset is where its stretch begins, types met in any order |
| StepIndex.PlanSlices | step/resolve.go:113-129 | after every range, each slice is exactly as long as its type's list and every range knows its stretch |
| StepIndex.WriteType | step/resolve.go:130-139 | one write into a type's slice keeps every range's finished cells |
| StepIndex.GroupByType | step/resolve.go:108-140 | whatever the interleaving, every type's slice is the list of the ranges laid end to end, and absent types have none |
| StepIndex.RangesPartition | step/resolve.go:73-81 | the ranges are contiguous, in order, and cover [0, n) for every n and number of ranges |
| StepRefs.IndexIDs | step/resolve.go:48-66 | dense or sparse, a lookup finds the last instance of that id, or none |
| StepRefs.StreamsJoin | step/resolve.go:142-163 | however the instances are cut into ranges, the ranges' reference streams join to the whole stream |
| StepRefs.WalkRange | step/resolve.go:154-166 | a range's walk produces its references in source and attribute order with their resolved targets |
| StepRefs.WalkRanges | step/resolve.go:150-171 | the ranges' walks one after the other, and the warnings in source order |
| StepRefs.ListedIsReferrers | step/resolve.go:142-146 | a target's sublist of the stream is the directly defined referrer list |
| StepRefs.IndexInverse | step/resolve.go:142-199 | for every cut into ranges and every interleaving: the offsets run from 0 to the index's size, each instance's cells are its referrer list in source and attribute order, and the warnings list the missing references in source order |
| StepRefs.MissingOf | step/resolve.go:158-163 | a range's warnings are its unresolved references in order |
| StepRefs.ReferrersExact | step/file.go:152-161 | an instance's referrer list holds a (referrer, attribute, id) exactly when that attribute's tree spells the id at some path through lists and typed values and the id resolves to the instance |
| StepRefs.ReferrersPlaced | step/resolve.go:142-146 | the referrer list has one entry for each place where a reference to the instance stands, in the order of the places: by instance, by attribute, by path in the attribute |
| StepRefs.FirstSeenExact | step/file.go:136-150 | first-seen order lists exactly the first referrer of each id: each id once, and none dropped |
| StepRefs.Inverse | step/file.go:136-150 | the referrers behind a reference list, one for each id, in first-seen order |
| StepRefs.InverseCompleteIff | step/file.go:136-150 | every referrer is listed if and only if no two of them share an id |
| StepRefs.ListedIsOfType | step/resolve.go:96-110 | the items of a type are the instances indexed under it, a complex one once for each of its part types, in source order |
| StepRefs.OfTypeExact | step/resolve.go:96-110 | an instance is listed under a type as often as its part types name it, any other once under its one type, and the list is in source order |
| StepRefs.IndexTypes | step/resolve.go:108-140 | for every cut and interleaving, each type's slice is its list in source order |
| StepGraph.ForwardIsInverse | step/file.go:136-161 | u points at v exactly when v's inverse index lists a reference from u; then a holder of u's id is among v's distinct referrers, and u itself when no other holder of the id points at v |
| StepGraph.GraphExact | step/file.go:200-216 | a traversal follows u to v exactly when some attribute of u spells, at some path, an id of which v is the last holder |
| StepGraph.GraphWellFormed | step/file.go:202-206 | a traversal only ever meets instances of the file |
| StepGraph.GraphLastHolders | step/resolve.go:48-66 | of instances that share an id, references only go to the last |
| StepTraverse.Complete | step/file.go:178-181 | with nothing queued, every allowed path has been followed at its length or shorter |
| StepTraverse.Traverse | step/file.go:173-219 | in either order, over the graph in which any holder of the start's id counts as the start: exactly the instances within maxLevels reference steps of it (all reachable ones when negative), the start first, each once; the recorded depth is the shortest distance. Where the walk meets no other holder of the start's id that is the file's own closure; breadth-first, instances come out in order of depth. Cyclic graphs included |
| StepTraverse.ClosureIff | step/file.go:173-219 | the traversal finds the whole bounded closure of its start if and only if that closure holds no other instance with the start's id |
| StepTraverse.HolderMeetsNone | step/file.go:182-183 | a start that is the last holder of its id, which is what a lookup returns, meets no other holder |
| StepTraverse.RecordedProgress | step/file.go:207-215 | re-expanding a node at a shorter depth still makes progress: fewer undiscovered nodes, or the same and a smaller sum of depths |
| StepTraverse.Recorded | step/file.go:202-216 | recording a shorter depth keeps every recorded depth real and every skipped edge covered |
| StepTraverse.Expand | step/file.go:201-216 | expanding a visit covers all its references and keeps the traversal's invariants |
| GeoBudget.Budget.constructor | geometry/budget.go:15-17 | a budget starts whole |
| GeoBudget.Spend | geometry/budget.go:19-31 | a charge is taken in full, no budget is unlimited, and the verdict is whether anything is overdrawn |
| GeoTriangulate.CrossIsShoe | geometry/triangulate.go:246-248 | a corner's cross product is the shoelace sum round its three edges |
| GeoTriangulate.CornerArea | geometry/triangulate.go:78-80 | cutting a corner off lowers the loop's area by exactly that corner's triangle |
| GeoTriangulate.IndexedLoopArea | geometry/triangulate.go:139-154 | the fan sum about the first vertex is the shoelace area of the loop |
| GeoTriangulate.ReversedArea | geometry/triangulate.go:41-44 | reversing a loop negates its area |
| GeoTriangulate.DropRepeat | geometry/triangulate.go:112-115 | at zero tolerance, dropping a repeated end point leaves the swept area alone |
| GeoTriangulate.DropSpike | geometry/triangulate.go:116-119 | and so does dropping a spike |
| GeoTriangulate.DropSeam | geometry/triangulate.go:123-135 | and so do the three seam repairs about the closed loop |
| GeoTriangulate.SettleEnd | geometry/triangulate.go:108-122 | the popping loop comes to the path's settled end |
| GeoTriangulate.SettledEndClean | geometry/triangulate.go:108-122 | a settled end has no repeat or spike; at zero tolerance it sweeps the same area; a clean path is left as it is |
| GeoTriangulate.SettleSeam | geometry/triangulate.go:123-136 | the seam loop comes to the path's settled seam |
| GeoTriangulate.SettledSeamClean | geometry/triangulate.go:123-136 | none of the three seam coincidences is left; at zero tolerance the area is unchanged; a clean seam is left as it is |
| GeoTriangulate.SimplifyLoop | geometry/triangulate.go:98-137 | the in-place loops compute the cleaned loop, for every tolerance |
| GeoTriangulate.SimplifiedClean | geometry/triangulate.go:98-137 | the cleaned loop is in order, without repeats or spikes, seam included; it keeps every point exactly when consecutive points and points two apart differ by more than the tolerance all the way round; at zero tolerance its area is the polygon's own |
| GeoTriangulate.AreaConserved | geometry/triangulate.go:46-91 | the clipped ears' area and the remaining loop's always add up to the starting loop's, and every clipped ear is strictly positive |
| GeoTriangulate.CompletedRun | geometry/triangulate.go:46-91 | a completed run emits two triangles fewer than the loop has vertices, covering its area exactly |
| GeoTriangulate.TestEar | geometry/triangulate.go:49-77 | a corner's verdict, at a cost of at least one and at most one more than the loop's length |
| GeoTriangulate.FindEar | geometry/triangulate.go:48-83 | a pass stops at the first ear, or overdraws the budget by at most one ear test |
| GeoTriangulate.ClipEars | geometry/triangulate.go:45-91 | the loop clips first ears until three vertices remain or none is an ear; triangles and covered area are that run's |
| GeoTriangulate.LoopExtent | geometry/triangulate.go:158-167 | the larger side of the polygon's bounding box |
| GeoTriangulate.Prepare | geometry/triangulate.go:37-44 | the starting loop: the cleaned loop, reversed when its area is negative |
| GeoTriangulate.StartLoop | geometry/triangulate.go:37-44 | the starting loop has no vertex twice and no negative area, and is the whole polygon, one way or the other, exactly when the polygon is clean |
| GeoTriangulate.TriangulatePolygon | geometry/triangulate.go:18-96 | it answers exactly when the budget holds and the covered area matches the polygon's within tolerance, and the triangles are the whole clipping run of the cleaned, counter-clockwise loop; a budget not overdrawn on entry is overdrawn by at most the polygon's length plus one; and when it answers, half the triangles' summed absolute cross products differ from the polygon's absolute area by at most 1e-6 of the larger plus the square of 1e-7 of the extent |
| GeoTriangulate.AcceptedAccounts | geometry/triangulate.go:92-96 | the coverage verdict bounds, for the output itself, how far the area laid down can be from the polygon's |
| GeoTriangulate.Clipped | geometry/triangulate.go:38-96 | the clipping and its verdict on a starting loop |
| PolyTwoEars.OneWayRound | geometry/triangulate.go:9-17 | a simple polygon, one way round or the other, winds once round its inside and nowhere else, and whatever edge is set aside has an ear off it |
| PolyTwoEars.LeftIsGood | geometry/triangulate.go:9-17 | which way: a simple polygon that turns left at its leftmost, lowest vertex is counter-clockwise and has those ears |
| PolyEars.EarInside | geometry/triangulate.go:60-71 | an ear's closed triangle lies inside the polygon |
| PolyEars.CutSimple | geometry/triangulate.go:78-80 | cutting an ear off a simple polygon leaves a simple polygon: the chord meets the other edges at its ends only |
| PolyEars.CutOnceRound | geometry/triangulate.go:78-80 | and one that winds the same way |
| PolyClip.EarIsEar | geometry/triangulate.go:49-74 | the clipper's corner test, by index, is being an ear of the polygon, by position |
| PolyClip.ClippedGood | geometry/triangulate.go:78-80 | every clip keeps the loop simple and counter-clockwise |
| PolyClip.SimpleCompletes | geometry/triangulate.go:9-17 | clipping a simple counter-clockwise loop never stalls: it comes down to one counter-clockwise triangle |
| PolyClip.AreaTells | geometry/triangulate.go:41-44 | a simple polygon's area is positive exactly when it is counter-clockwise and negative exactly when it is clockwise, so it is never zero |
| PolyClip.SimpleCovers | geometry/triangulate.go:92-95 | a clean simple polygon, either way round, is never refused for coverage: two triangles fewer than it has vertices, all counter-clockwise, of exactly its area together |
| PolyClip.RunWinds | geometry/triangulate.go:46-87 | any run, completed or stalled: a loop winds round a point off the ears' sides as often as the ears hold it, plus what the remaining loop does |
| PolyClip.TrianglesTile | geometry/triangulate.go:9-17 | the triangles of a clean simple polygon tile it: a point off their sides is in exactly one of them if the polygon winds round it and in none otherwise |
| GeoManifold.CornerCount | geometry/triangulate.go:78-80 | cutting a corner off replaces its two directed edges by the chord and touches no other |
| GeoManifold.EdgeInvStep | geometry/triangulate.go:78-80 | clipping keeps the edge invariant: emitted triangles and remaining loop together walk the start loop's edges, and inner edges once each way |
| GeoManifold.ClipKeepsEdges | geometry/triangulate.go:46-87 | the invariant holds along the whole run |
| GeoManifold.CompletedIsCap | geometry/triangulate.go:88-95 | a completed run emits a cap: the start loop's edges once in its direction, every inner edge once each way |
| GeoShell.WallsCount | geometry/extrude.go:28-33 | every directed edge is walked by at most one side wall, once |
| GeoShell.ShellCount | geometry/extrude.go:28-38 | how often walls and both caps walk any directed edge |
| GeoShell.CapClosesShell | geometry/extrude.go:28-38 | a cap over the whole profile closes the shell: every directed edge once and its reverse once |
| GeoShell.DroppedStaysOpen | geometry/extrude.go:23-38 | a cap that drops a profile vertex leaves the shell open |
| GeoShell.StalledStaysOpen | geometry/extrude.go:23-38 | a stalled clipping run leaves the shell open |
| GeoShell.ReversedStaysOpen | geometry/triangulate.go:41-44 | clipping a clockwise profile winds the caps against the walls and leaves the shell open |
| GeoShell.ShellBalancedIff | geometry/extrude.go:15-40 | the shell is balanced if and only if the profile is clean, it is not clockwise and clipping comes down to one triangle, for every profile and tolerance |
| GeoSolid.ExtrudeRings | geometry/extrude.go:42-84 | bottom ring, then top ring, placed; refused exactly for fewer than three points or zero depth |
| GeoSolid.RingsCarried | geometry/extrude.go:66-84 | every bottom vertex is a profile point placed, and every top one the same point carried along the extrusion and placed |
| GeoSolid.AppendWalls | geometry/extrude.go:28-33 | two triangles a side, the last side wrapping round |
| GeoSolid.AppendCaps | geometry/extrude.go:34-38 | each cap triangle reversed at the bottom and shifted at the top |
| GeoSolid.ExtrudeSolid | geometry/extrude.go:12-40 | it answers exactly for three points or more, a depth and a budget that holds, when the cap covers the profile, so for every clean simple profile; the mesh is the shell of the cap over the placed rings; for a simple profile not clockwise whose vertices weld apart it is a closed manifold exactly when the profile is clean |
| GeoSolid.BalancedByKey | geometry/quantities.go:120-129 | with pairwise distinct weld keys, balance by key is balance by index |
| GeoSolid.ExtrudedClosedIff | geometry/extrude.go:15-40 | the manifold test accepts an extruded profile of distinct weld keys, simple or not, if and only if the profile is clean, not clockwise, and clipping comes down to one triangle |
| GeoSolid.SimpleClosedIff | geometry/extrude.go:15-40 | for a simple profile not clockwise, if and only if the profile is clean |
| GeoSolid.WeldId | geometry/quantities.go:142-157 | a vertex's id stands for its weld key, new keys getting the next id |
| GeoSolid.WeldCorners | geometry/quantities.go:159-163 | the ids of a triangle's three corners |
| GeoSolid.IsClosedManifold | geometry/quantities.go:130-174 | accepts exactly the meshes of at least four triangles, in range, none with two welded corners, in which every directed edge between weld keys that occurs occurs once and its reverse once |
| GeoSolid.RoundExact | geometry/quantities.go:146-150 | rounding gives the nearest whole number, halves going away from zero |
| GeoSolid.WeldKeyExact | geometry/quantities.go:134-150 | a weld key names the point of a 1e-5 grid nearest the vertex, so vertices that weld are within 1e-5 along every axis |
| GeoSolid.EdgesPaired | geometry/quantities.go:168-173 | the scan over the edge map, in any order, decides the balance |
| GeoSolid.Unpaired | geometry/quantities.go:168-171 | a directed edge counted other than once, or without its reverse, breaks the balance |
| GeoSolid.Paired | geometry/quantities.go:168-173 | if every edge in the map is counted once and reversed once, no edge outside it is left over |
| GeoVolume.MeshVolume | geometry/quantities.go:84-118 | a volume is reported exactly for a closed manifold with a non-zero signed sum, and it is that sum's size over six |
| GeoVolume.PairsCancel | geometry/quantities.go:120-129 | a quantity that flips sign with direction sums to nothing over edges that come in opposite pairs |
| GeoVolume.DetShift | geometry/quantities.go:103-104 | translating a tetrahedron changes it by one term for each directed edge |
| GeoVolume.ShiftedSum | geometry/quantities.go:97-105 | translating a mesh changes its signed sum by a sum over directed edges |
| GeoVolume.VolumeOriginFree | geometry/quantities.go:84-118 | the signed sum of an accepted mesh whose welded vertices coincide does not change under translation |
| GeoVolume.WallsVolume | geometry/extrude.go:28-33 | the walls contribute twice the height times what the profile sweeps |
| GeoVolume.CapsVolume | geometry/extrude.go:34-38 | the caps contribute the height times their covered area |
| GeoVolume.ExtrudedVolume | geometry/extrude.go:23-40 | an extruded profile whose shell closes measures its area times its height times the scale of its placement matrix, for every placement |
| GeoVolume.DetTurn | geometry/vec.go:11-17 | a placement's linear part scales every tetrahedron by its determinant |
| GeoVolume.TurnedSum | geometry/vec.go:11-17 | and so the signed sum of any mesh |
| GeoVolume.ShiftedShell | geometry/quantities.go:97-105 | translating a mesh balanced by index leaves its signed sum alone, whatever its vertices weld to |
| GeoProfile.PolygonArea2D | geometry/triangulate.go:237-244 | the loop over the edges, the closing one by remainder, is the shoelace area |
| GeoProfile.BackwardArea | geometry/triangulate.go:230-233 | reversing the points negates the area |
| GeoProfile.EnsureCCW | geometry/triangulate.go:226-235 | the polygon as it is, or reversed when its area is negative: never of negative area |
| GeoProfile.EitherWay | geometry/triangulate.go:221-235 | winding a profile counter-clockwise keeps it simple, and clean exactly when it was |
| GeoProfile.ExtrudeProfile | geometry/extrude.go:15-56 | a profile wound as it is read and then extruded: a clean simple one is refused only over the budget, and any simple one whose vertices weld apart gives a closed manifold exactly when it is clean |
| GeoProfile.SimpleVolume | geometry/extrude.go:23-40 | a clean simple profile's mesh measures its area times its height, scaled by its placement |
| GeoProfile.AcceptedAndOpen | geometry/triangulate.go:98-137 | a simple profile with a vertex nearer a corner than the clean-up tolerance is accepted, its vertices weld apart, and its mesh is open |
| GeoProfile.BowtieDeclined | geometry/triangulate.go:13-17 | the bowtie (0,0), (2,0), (0,2), (2,2) does not pass the coverage verdict |
| GeoMeshing.ListsFollow | geometry/meshcache.go:84-92 | reading point lists through the cache gives the uncached bounds, or names a missing list's cell |
| GeoMeshing.BoxFollows | geometry/meshcache.go:138-146 | an item's box through the cache is the uncached one, or needs a later cell |
| GeoMeshing.BoxedFollows | geometry/geometry.go:230-239 | the box fallback through the cache is the uncached one, or needs a later cell |
| GeoMeshing.MappedFollows | geometry/mapped.go:36-74 | a mapped item through the cache is the uncached one, or needs a shape of greater depth or later |
| GeoMeshing.TessellateFollows | geometry/geometry.go:125-187 | so is any item, clipped ones recursing included, with charges and flags |
| GeoMeshing.TurnFollows | geometry/geometry.go:198-222 | so is one step of a union |
| GeoMeshing.UnionGot | geometry/geometry.go:196-228 | uncached meshing always comes to a result, cyclic mappings included |
| GeoMeshing.CompleteGot | geometry/mapped.go:76-100 | so does completing any cell |
| GeoMeshing.BeginOnCourse | geometry/geometry.go:189-200 | a cell's construction starts on course to its uncached value |
| GeoMeshing.TurnOnCourse | geometry/geometry.go:198-222 | a step through an honest cache stays on course, or asks for a cell of strictly later rank |
| GeoMeshing.FinishOnCourse | geometry/mapped.go:96-99 | a finished union yields its cell's uncached value, or asks for a strictly later cell |
| GeoBuild.ActOnCourse | geometry/meshcache.go:62-76 | what the top of a worker's stack does next: asks for a later cell, goes on with one item fewer, or publishes the uncached value |
| GeoBuild.Pushed | geometry/meshcache.go:66-75 | claiming a missing cell keeps every invariant: cells hold uncached values, one builder each, stacks rising in rank |
| GeoBuild.Advanced | geometry/geometry.go:201-222 | so does meshing one more item |
| GeoBuild.Published | geometry/meshcache.go:74 | so does publishing a finished cell |
| GeoBuild.SomeoneMoves | geometry/meshcache.go:66-75 | following waits climbs ranks, so some builder is not waiting |
| GeoBuild.NoDeadlock | geometry/geometry.go:72-105 | while any worker is busy some worker can move, cyclic mappings included |
| GeoBuild.AllBuilt | geometry/geometry.go:81-101 | with every worker gone, every element's cell is built, and every built cell holds its uncached value, cost included |
| GeoBuild.Build.constructor | geometry/geometry.go:72-78 | an empty cache and idle workers satisfy the invariants |
| GeoBuild.Build.Draw | geometry/geometry.go:81-87 | drawing an element or leaving keeps the invariants and makes progress |
| GeoBuild.Build.Move | geometry/meshcache.go:62-76 | a worker's step keeps the invariants and makes progress |
| GeoBuild.BuildScene | geometry/geometry.go:68-118 | every run ends, and for every schedule the meshes (with flags and sources), the cost charged in every cell built, elements and shared shapes, and the warnings are those of uncached one-element-at-a-time meshing; and an element's mesh is what its distinct items draw, side by side, each triangle on its own item's vertices |
| GeoBuild.WarningsExact | geometry/geometry.go:103-118 | an element is warned of exactly when its mesh is empty, when it is partial though not empty, and when it went over budget |
| GeoDrawing.CornersJoined | geometry/geometry.go:251-259 | surfaces laid side by side keep the corner points of their triangles, in order |
| GeoDrawing.DrawnShape | geometry/mapped.go:80-100 | the uncached mesh of a mapped representation is what its distinct items draw on their share, with its flags, source and cost |
| GeoDrawing.ElementDrawn | geometry/geometry.go:192-228 | the uncached mesh of an element is what its distinct items draw on its budget, readers, placements, cuts and boxes alone deciding, and it is charged what they use |
| GeoDrawing.ElementCorners | geometry/geometry.go:198-228 | the corner points of an element's triangles are those of its items' surfaces, item after item |
| GeoMeshLaws.MappedHeld | geometry/mapped.go:30-63 | a mapped item never gives budget back, and overdraws it only by accounted slack and the shares of deeper shapes |
| GeoMeshLaws.TessellateHeld | geometry/geometry.go:125-187 | nor does any item |
| GeoMeshLaws.UnionHeld | geometry/geometry.go:196-228 | nor does a union |
| GeoMeshLaws.ShapeWithinShares | geometry/mapped.go:76-100 | a mapped representation entered at depth d costs at most 8 - d shares of an element's budget plus the charges made with nothing left |
| GeoMeshLaws.ElementWithinShares | geometry/mapped.go:80-84 | an element is charged at most its budget, eight shares and that slack, which is zero unless the budget was overdrawn |
| GeoMeshLaws.AddIndexed | geometry/geometry.go:251-259 | appending a mesh leaves the corner points of the earlier triangles alone and gives the new ones the points they had, so the joint mesh indexes only its own vertices |
| GeoMeshLaws.MeshesIndexed | geometry/geometry.go:196-228 | every element's and shared shape's mesh indexes only its own vertices, however clipped, mapped, boxed and joined |
| PlanarBoundary.ClosedCancels | geometry/silhouette.go:233-236 | round a boundary that closes, whatever is measured at the weld keys cancels |
| PlanarBoundary.WeldExact | geometry/section.go:22-26 | a planar weld key names the nearest point of a 1e-5 grid |
| PlanarBoundary.NetNearKeys | geometry/silhouette.go:237-242 | a net displacement is its keys', give or take a rounding at each end |
| PlanarBoundary.ClosedAreaSteady | geometry/silhouette.go:233-254 | translating a boundary that closes moves its doubled area by at most the translation's size times 1e-5 a segment |
| PlanarBoundary.ExactAreaFixed | geometry/silhouette.go:220-242 | and by nothing when weld-equal end points coincide |
| PlanarBoundary.Tally | geometry/silhouette.go:422-429 | each key's degree, and its last point |
| PlanarBoundary.BoundaryCloses | geometry/silhouette.go:243-255 | true exactly when every key has as many segments leaving as arriving |
| PlanarBoundary.LooseKeys | geometry/silhouette.go:432-437 | exactly the keys of non-zero degree, each once, in some order |
| PlanarBoundary.BridgeCloses | geometry/silhouette.go:457-464 | one segment from the loose end to the loose start closes an open chain |
| PlanarBoundary.BridgeOpenBoundary | geometry/silhouette.go:418-466 | it answers exactly for a closed boundary or one short gap; the answer closes, adds at most that one segment at the end, and the final re-check never refuses |
| PlanarGrid.Clamp | geometry/silhouette.go:565-576 | a clamped index is inside the axis |
| PlanarGrid.Grid.constructor | geometry/silhouette.go:519-563 | every item is in every cell its box touches, the one-cell and zero-extent cases included |
| PlanarGrid.Grid.PlaceRow | geometry/silhouette.go:557-559 | one row of an item's cells gains it, no cell loses anything |
| PlanarGrid.Grid.Place | geometry/silhouette.go:553-561 | all cells an item's box touches gain it |
| PlanarGrid.Grid.Query | geometry/silhouette.go:581-599 | no item whose box overlaps the query is missed, and only items of the grid are found |
| PlanarGrid.SharedCell | geometry/silhouette.go:565-579 | overlapping boxes touch a common cell: clamping keeps order |
| PlanarSplit.AppendProjected | geometry/silhouette.go:95-125 | a projected triangle is kept, wound counter-clockwise, exactly when its corners weld apart and it has area; kept triangles stay kept ones |
| PlanarSplit.UnionEdges | geometry/silhouette.go:280-291 | three directed edges a triangle, in order; all of some length when the triangles are kept ones |
| PlanarSplit.ParamsMeet | geometry/silhouette.go:616-627 | the two parameters of a crossing name one point |
| PlanarSplit.MeetingIsParams | geometry/silhouette.go:616-627 | whatever point two non-parallel edges share is the one the parameters name |
| PlanarSplit.ApartMeetsOnlyStray | geometry/silhouette.go:473-475 | edges whose boxes lie apart yield parameters if and only if the first is a zero-length edge whose point projects strictly inside the second |
| PlanarSplit.CutPair | geometry/silhouette.go:486-488 | a pair's parameters are added to both edges, nothing else changes |
| PlanarSplit.FindCuts | geometry/silhouette.go:471-490 | every pair whose boxes meet is scanned, and for edges of some length the cuts are exactly the all-pairs scan's |
| PlanarSplit.AllPairs | geometry/silhouette.go:473-476 | pairs the grid never tests would have added nothing |
| PlanarSplit.NextSpan | geometry/silhouette.go:495-500 | one more stretch keeps an edge's pieces in order and apart |
| PlanarSplit.NothingBetween | geometry/silhouette.go:468-470 | between consecutive cuts no edge at an angle meets the edge |
| PlanarSplit.EndIsCut | geometry/silhouette.go:468-470 | an end of a collinear edge strictly inside an edge is one of its cuts |
| PlanarSplit.SplitAtIntersections | geometry/silhouette.go:468-503 | no edge at an angle meets the open interior of an emitted piece, and no edge on its line ends inside it beyond the parameter tolerance; pieces end at ends or cuts, come edge by edge and in order without overlap, and what is on no piece lies between two cuts closer than that tolerance |
| PlanarSplit.ParamOfLerp | geometry/silhouette.go:638-652 | the parameter found for a point of an edge is the one it lies at |
| PlanarSplit.CutByExact | geometry/silhouette.go:610-652 | an edge is cut at a parameter exactly where another edge meets it at an angle, or ends on it further than 1e-12 from its ends |
| PlanarSweep.RingParity | geometry/union2d.go:489-493 | walking a ring switches sides of a slab once for each spanning edge |
| PlanarSweep.SlabEven | geometry/union2d.go:489-493 | every slab is spanned by an even number of edges |
| PlanarSweep.AtMix | geometry/union2d.go:438-440 | an edge is linear across a slab |
| PlanarSweep.TrapezoidCovers | geometry/union2d.go:513-520 | a trapezoid's two triangles cover exactly what lies between its two edges |
| PlanarSweep.PairsAreOdd | geometry/union2d.go:513-520 | off the edges, a height lies in some pair exactly when an odd number of crossings is below it |
| PlanarSweep.BelowIsLower | geometry/union2d.go:481-485 | the edges a downward ray crosses are the slab's crossings below the point |
| PlanarSweep.SlabStacks | geometry/union2d.go:494-512 | edges that do not cross inside the slab come out in order at both its sides, ties included |
| PlanarSweep.SlabFilled | geometry/union2d.go:477-521 | inside a slab, off its edges, its triangles cover exactly the even-odd fill |
| PlanarSweep.SortCrossings | geometry/union2d.go:504-512 | the crossings rearranged by middle, then left, then right height |
| PlanarSweep.Collect | geometry/union2d.go:446-464 | the non-vertical edges from left to right, and every vertex abscissa, each once |
| PlanarSweep.SweepSlab | geometry/union2d.go:477-521 | one slab's triangles are its sorted crossings paired from the bottom |
| PlanarSweep.SweepRings | geometry/union2d.go:442-523 | for rings whose edges do not cross inside a slab, the triangles cover a point clear of edges and vertex abscissas exactly when it is inside by the even-odd rule, everywhere in the plane; and no point is inside two of the triangles |
| PlanarSweep.PiecesApart | geometry/union2d.go:513-520 | a slab's triangles do not overlap |
| PlanarFill.FilledIsWound | geometry/union2d.go:442-444 | even-odd inside is being wound round an odd number of times by all the rings together |
| PlanarFill.ClearExact | geometry/union2d.go:481-485 | a point is clear of the edges exactly when no vertex is above or below it and it is on no edge |
| PlanarFill.EdgesOfExact | geometry/union2d.go:449-463 | the edges swept are the rings' edges that are not vertical |
| PlanarFill.UncrossedExact | geometry/union2d.go:466-468 | no two edges cross inside a slab exactly when edges that meet at an angle do so only at a vertex's abscissa |
| PlanarStitch.BestUnique | geometry/section.go:463-466 | the sharpest left turn, ties to the smaller id, is one vertex |
| PlanarStitch.NextEdge | geometry/section.go:463-495 | the choice depends on the set of kept edges only, never on a neighbour list's order; turning back is the last resort |
| PlanarStitch.WalkFace | geometry/section.go:440-461 | the walk and the half-edges it consumes are those of the order-free walk, and it terminates because unused half-edges strictly decrease |
| PlanarStitch.WalkCloses | geometry/section.go:440-461 | a walk that closes is a closed walk over half-edges no earlier walk consumed, each once |
| PlanarStitch.WalksApart | geometry/section.go:410-418 | no half-edge is consumed by two walks, and all are kept edges |
| PlanarStitch.WeldSegments | geometry/section.go:351-377 | ids by first-seen weld key, and how many segments join each pair of ids, zero-length ones skipped |
| PlanarStitch.BuildAdjacency | geometry/section.go:379-390 | whatever order the edges are taken in, exactly the kept edges' two directions are listed, each once |
| PlanarStitch.Gather | geometry/section.go:395-401 | every kept half-edge once, in whatever order the map is read |
| PlanarStitch.CanonicalRing | geometry/section.go:497-511 | the ring rotated to its first smallest point |
| PlanarStitch.CanonicalIffOneStart | geometry/section.go:497-511 | all rotations of a ring get one canonical form if and only if all places of its smallest point start the same ring |
| PlanarStitch.WalkAbove | geometry/section.go:440-461 | a walk that starts with every half-edge out of a smaller vertex used goes through greater vertices only |
| PlanarStitch.WalksAbove | geometry/section.go:402-418 | taken in position order, every walk starts at its smallest vertex and meets it once |
| PlanarStitch.LeastIsCanonical | geometry/section.go:497-511 | a ring that starts at its one smallest point is the canonical form of all its rotations |
| PlanarStitch.StitchedLeastFirst | geometry/section.go:426-438 | every stitched ring is such a ring, so rings equal up to where they start are equal |
| PlanarStitch.StitchRings | geometry/section.go:345-438 | the result is the sorted rings of the walks from the sorted starts over the kept edges, and every ring is an outline: at least three points, counter-clockwise round more than 1e-12 of area, no two edges meeting inside each other, its one least point first |
| PlanarStitch.StitchUnique | geometry/section.go:395-438 | two results for the same segments are equal: no order of maps, neighbour lists or unstable sorting can change them |
| PlanarStitch.RingsAreWalks | geometry/section.go:410-434 | the emitted rings are exactly the outlines among the closed walks over kept half-edges, and no half-edge is in two of the walks |
| PlanarStitch.ProperlyCrossExact | geometry/section.go:532-539 | two segments cross properly exactly when they share a point and no end is on the other's line |
| PlanarStitch.RingsExact | geometry/section.go:414-434 | a closed walk gives a ring exactly when its points are an outline, and then its points |
| PlanarStitch.StitchedOutlines | geometry/section.go:414-438 | every result of stitching consists of outlines |
| PlanarFaces.NeverStuck | geometry/section.go:450-455 | a walk that has not come back to its start always has an edge to take next |
| PlanarFaces.OneWalk | geometry/section.go:444-461 | a walk taken to its end has consumed as many half-edges into every vertex as out of it; one given up has consumed two half-edges more than there are vertices |
| PlanarFaces.GivenUpForLength | geometry/section.go:457-459 | the first walk given up was cut off for its length, never for a dead end |
| PlanarFaces.AllWalkedIff | geometry/section.go:409-418 | the closed walks take every kept half-edge if and only if no walk is given up |
| PlanarFaces.TwoEachWalked | geometry/section.go:409-418 | where exactly two kept edges meet at every vertex no walk is given up, and every kept half-edge is in a closed walk |
| PlanarFaces.StitchedShares | geometry/section.go:350-438 | so stitching takes every kept half-edge, in one closed walk each, if and only if it gives up none, and its rings are the outlines among those walks |
| PlanarTurns.TurnIsLeft | geometry/section.go:482-486 | for any angle function, comparing turns is comparing by cross products which lies further left of the line come by |
| PlanarTurns.SomeAngle | geometry/section.go:482 | there are such angle functions |
| PlanarTurns.NextIsSharpest | geometry/section.go:463-495 | the edge taken is, by cross products, the sharpest left turn among the open edges |
| PlanarTurns.NothingLeft | geometry/section.go:463-466 | no other open edge lies in the sector to the left of the turn taken |
| PlanarTurns.WalkTurnsLeft | geometry/section.go:440-461 | a walk that closes turns as far left as it can at every vertex it comes through |
| PlanarTurns.StitchedTurnsLeft | geometry/section.go:440-461 | every emitted ring is the ring of a closed walk that takes the sharpest left turn at every vertex |
| PlanarSquares.SquaresStitched | geometry/section.go:440-444 | two unit squares that touch at a corner come out as two rings |
| Sorting.Sort | geometry/section.go:436 | a sorted rearrangement, for any total order |
| Sorting.SortedUnique | geometry/section.go:402-408 | under an order with no ties between different values, the sorted arrangement is unique, so an unstable sort is deterministic |
| PlanarTouch.FootNearest | geometry/union2d.go:184-188 | the point a point projects to, held between the ends, is the segment's nearest point |
| PlanarTouch.DistanceToRing | geometry/union2d.go:178-191 | the loop finds the distance to the nearest point of the ring, squared; none of an empty ring |
| PlanarTouch.SideExact | geometry/union2d.go:582-593 | a point is on neither side of an edge's line exactly when it is within the quantum of some point of the line |
| PlanarTouch.CrossingExact | geometry/union2d.go:562-565 | two edges count as crossing exactly when they share a point and no end is within the quantum of the other's line |
| PlanarTouch.RunsAlongExact | geometry/union2d.go:595-603 | an edge counts as running along another exactly when two of the latter's points, further apart than the quantum, are where points of the former project to |
| PlanarTouch.LongEdgesExact | geometry/union2d.go:550-558 | the edges compared are all rings' edges longer than the quantum, and no others |
| PlanarTouch.OffendsExact | geometry/union2d.go:561-577 | a pair is refused exactly when the two share a point with every end further than 1e-5 from the other's line, or one lies that close to the other's line and shares more than that length with it |
| PlanarTouch.EdgesCrossOrOverlap | geometry/union2d.go:545-580 | true exactly when some two of those edges cross or run along each other |
| PlanarInside.StrikesIsWinds | geometry/section.go:294-300 | an edge is struck by the ray to the right exactly when it winds past the point, half-open ends and vertices at the ray's height included |
| PlanarInside.PointInPolygon | geometry/section.go:290-303 | the toggling loop computes the parity of the winding number |
| PlanarInside.SimpleInside | geometry/section.go:290-303 | off a simple polygon the answer is whether the polygon winds round the point, which it does at most once |
| PlanarInside.CandidatesExact | geometry/union2d.go:157-166 | the points tested are the ring's vertices and the points halfway along its edges |
| PlanarInside.RingInsideRing | geometry/union2d.go:146-176 | a verdict exactly when some vertex or midpoint is further than the quantum from the other ring and all that are agree, and then theirs |
| PlanarInside.OneSideDecided | geometry/union2d.go:146-156 | a ring that does not pass through another, though it may touch it: the verdict is the side it is on as soon as one tested point is clear |
| PlanarInside.AsunderDecided | geometry/union2d.go:146-156 | rings whose edges do not meet: as soon as one tested point is clear the verdict is known, and it holds of every vertex and of every edge point |
| PlanarLaminar.InnerOfInner | geometry/union2d.go:146-156 | a simple polygon inside one that is inside a third is inside the third, touching ones included |
| PlanarLaminar.RoundOne | geometry/union2d.go:115-116 | of two polygons around a third, one is inside the other |
| PlanarLaminar.InnerLess | geometry/union2d.go:103-104 | an inner polygon has less area, so every loop's containers precede it |
| PlanarRings.AsunderApart | geometry/union2d.go:146-156 | rings that do not meet at all meet at points only and pass nowhere through each other |
| PlanarRings.NestableNests | geometry/union2d.go:64-69 | simple loops that meet at points only, none passing through another: every loop bounds an area, every verdict is known, and containment nests |
| PlanarNesting.FirstIsNearest | geometry/union2d.go:115-128 | the first container met going back through the larger loops is the one directly around the loop |
| PlanarNesting.NearestDepth | geometry/union2d.go:123-126 | a loop lies one level deeper than the loop directly around it |
| PlanarNesting.FindParent | geometry/union2d.go:113-129 | for loops that nest, the parent found is the nearest container, none exactly when nothing contains the loop |
| PlanarNesting.SettleNext | geometry/union2d.go:113-129 | settling one more loop keeps every hole's parent an outer settled before it |
| PlanarNesting.Nest | geometry/union2d.go:103-129 | whatever the loops, a hole's parent is an outer; for loops that nest, holes are the loops at odd depth |
| PlanarNesting.Measure | geometry/union2d.go:86-98 | every loop's absolute area, refused exactly when a loop has fewer than three points or none |
| PlanarNesting.PlacedOnce | geometry/union2d.go:131-143 | assembled polygons hold every loop in exactly one polygon, once |
| PlanarNesting.PolygonsFromLoops | geometry/union2d.go:57-144 | loops of fewer than three points or no area are refused, and so are edges that cross or overlap; when it answers, every loop is in exactly one polygon: one polygon for each outer, in input order, holding exactly the holes whose parent it is, in input order. Simple loops that meet at points only, none passing through another and each with a tested point clear of the others, are answered if and only if no edges cross or overlap, and then the holes are the loops at odd depth, each in the loop directly around it |
| GeoOccupancy.Occupancy.constructor | geometry/occupancy.go:443-445 | nothing is marked to begin with |
| GeoOccupancy.Occupancy.Push | geometry/occupancy.go:447-454 | an empty unmarked cell is marked and queued; marks stay inside the open air |
| GeoOccupancy.Occupancy.SeedBorder | geometry/occupancy.go:455-462 | every empty border cell is marked |
| GeoOccupancy.Occupancy.Spread | geometry/occupancy.go:467-482 | all four neighbours of a cell are settled, and the measure falls |
| GeoOccupancy.Occupancy.FloodOutside | geometry/occupancy.go:437-484 | terminates, and marks a cell exactly when it is empty and a walk over 4-connected empty cells joins it to the border |
| GeoOccupancy.GuardExact | geometry/occupancy.go:127-139 | the guard accepts exactly the positive sizes of at most the cap's cells, and neither it nor the product it licenses leaves 32 bits |
| GeoOccupancy.HullIsExtent | geometry/occupancy.go:86-119 | the folded box is the smallest round every cut element, and absent exactly when none is cut |
| GeoOccupancy.BandGridDims | geometry/occupancy.go:74-141 | the grid covers the extent of the elements the slice cuts, padded; refused exactly when nothing is cut or the size is over the cap, whatever an out-of-range conversion yields |
| GeoOccupancy.BandGridCells | geometry/occupancy.go:143-154 | the cells that grid takes, none when there is no grid |
| GeoOccupancy.PaddingClear | geometry/occupancy.go:123-126 | whatever a cut element spans falls at least three cells inside the grid, so the flood starts in outside air; the last cell of an axis is the one the padded far side falls in |
| GeoOccupancy.RunProbe | geometry/occupancy.go:486-518 | outside exactly when the first sampled cell not in fabric is on the grid with a walk of empty cells to the border; covered, enclosed, off-grid and never-out cases likewise; in a unit direction some sample is always out of the fabric |
| GeoOccupancy.CellExact | geometry/occupancy.go:225-237 | a point's cell is the one whose tenth of a unit holds it, on either side of the origin |
| GeoOccupancy.NoCellSkipped | geometry/occupancy.go:494-500 | a probe in a unit direction is, a sample on, in the same column and row or in neighbouring ones |
| GeoOccupancy.ProbeLeaves | geometry/occupancy.go:495-517 | a probe in a unit direction finds a sample not in fabric within its limit: it would have left the grid |
| GeoFacing.SignTurnsRound | geometry/facing.go:349-376 | turning the direction round keeps exposure and trust and turns the flip, unless the sign was a coin flip; the shown side is the more open one |
| GeoFacing.OpenerShows | geometry/facing.go:349-376 | the more open side shows and decides the exposure; trust is 1 when it is outside, 0.8 when it is a court, and 0.3 when the other is as open |
| GeoFacing.MostCells | geometry/facing.go:234-248 | the largest band's grid, sized as it will be built: a bound that some band attains |
| GeoFacing.LiveTaken | geometry/facing.go:178-195 | a worker that takes a band adds its grid's cells to those live, and one that hands it in gives them back |
| GeoFacing.NoneLive | geometry/facing.go:151-157 | while no worker has a band no cells are live |
| GeoFacing.PoolSize | geometry/facing.go:145-173 | as many workers as the cap, the processors, the bands and the cell budget allow, at least one, and never so many that their grids could exceed the budget |
| GeoFacing.Claimed | geometry/facing.go:178-183 | a worker takes a band nobody has or has had |
| GeoFacing.HandedIn | geometry/facing.go:189-195 | handing in a band keeps every other result |
| GeoFacing.StepsRunning | geometry/facing.go:177-198 | any worker's step keeps the pool's invariants, and the counter moves by at most one |
| GeoFacing.LiveWithin | geometry/facing.go:151-173 | in every state of every run of a pool sized so, whoever moves when, the cells of live grids are within the budget |
| GeoFacing.TakesNext | geometry/facing.go:178-182 | a turn takes a band, so that a worker holds it that did not, exactly when the counter stood at it and moves on |
| GeoFacing.TakenOnce | geometry/facing.go:178-182 | no two turns of a run take the same band |
| GeoFacing.AllTaken | geometry/facing.go:177-199 | in a run that is over every band was taken and every result is its band's own |
| GeoFacing.Turn | geometry/facing.go:177-198 | a worker's turn is a step of the pool, keeps its invariants and makes progress |
| GeoFacing.RunPool | geometry/facing.go:174-199 | every run ends, and the run it was has these: in every state the cells of live grids are within the budget, every band is taken, and the results are the bands' own |
| GeoFacing.Sift | geometry/facing.go:94-117 | the elements without a band classified at once, later ones winning, and every band's key once |
| GeoFacing.MergeStep | geometry/facing.go:201-210 | merging the next band in key order keeps the serial winner of every id |
| GeoFacing.AllMerged | geometry/facing.go:201-212 | with every band merged, exactly the ids of facade elements are present, each with its serial winner's facing |
| GeoFacing.BuildFacings | geometry/facing.go:85-212 | for every schedule each id has the facing of the last element classified serially under it, also when an id repeats across bands, and exactly facade elements' ids are present |
| ImportTree.AddChildren | import.go:310-331 | one relation sets its children's parent and nothing else; a relation without a parent sets nothing |
| ImportTree.ForwardParentMap | import.go:301-339 | a child's parent is that of the last relation naming it, containment after aggregation |
| ImportTree.UnrootedIsUnderCycle | import.go:341-343 | an id's parent chain ends at no root if and only if it meets a cycle |
| ImportTree.FromRoots | import.go:354-366 | the traversal orders exactly the rooted ids, parents first, each once |
| ImportTree.AppendRest | import.go:367-372 | the ids not seen follow, each once, in input order |
| ImportTree.TopoOrder | import.go:341-374 | every distinct id comes out exactly once: first the rooted ones, parents before children, then only ids on or below a parent cycle |
| ImportTree.ParentIndexes | import.go:180-223 | a node's index names its parent's place in the order, and is absent exactly at roots |
| ImportTree.IndexDecreases | import.go:180-223 | in the rooted part every parent index is smaller than its node's |
| ImportTree.ParentsFirstIffAcyclic | import.go:149 | a parent precedes its child throughout the import order if and only if no id is on or below a parent cycle |
| ImportTree.TwoCycleNeverParentsFirst | import.go:341-343 | two ids that are each other's parent: no order of them has every parent first |
| StoreyPlans.StoreyOf | storeyplan.go:50-62 | the nearest storey ancestor, the node included, or none, wherever the walk ends |
| StoreyPlans.TwoCycleNeverHalts | storeyplan.go:50-62 | two nodes that are each other's parent, neither a storey, keep the walk going for ever |
| StoreyPlans.HaltsIffSoon | storeyplan.go:50-62 | the walk ends if and only if a storey or a root is met within as many steps as there are nodes |
| StoreyPlans.HaltsIffNotRound | storeyplan.go:50-62 | the walk ends if and only if it does not come to one node twice with no storey on the way |
| StoreyPlans.ParentsFirstHalts | storeyplan.go:50-62 | where parents precede children every walk ends |
| StoreyPlans.RootedHalts | storeyplan.go:50-62 | in the rooted part of the import order every walk ends |
| StoreyPlans.SeedFloors | storeyplan.go:64-78 | each storey's floor is the lowest base of the meshed nodes standing on it, and only such storeys have one |
| StoreyPlans.BuildBands | storeyplan.go:80-99 | the bands in floor order, ties by id, each ending at the next floor, the last open |
| StoreyPlans.BandsUnique | storeyplan.go:80-91 | the bands do not depend on the order the map is read in |
| StoreyPlans.BandsExact | storeyplan.go:80-99 | one band for each storey with a floor, from its floor to the next, cut 1.2 above its floor |
| StoreyPlans.OneBand | storeyplan.go:80-99 | every height from the lowest floor up lies in exactly one band |

## Left out

- IEEE rounding, NaN and infinity guards, and the narrowing of vertices to 32-bit floats: coordinates are exact reals.
- Unicode case folding: keywords are upper-cased as ASCII.
- String unescaping and number conversion themselves (`step/decode.go`), which are parameters.
- Error messages: a failure is its offset. That offset is the reference reading's; which files are read, and as what, is said independently of it.
- StepPrint.PrintedIsRead: the texts that the string and number parameters give back are the printer's, so it needs an inverse of them on what it prints.
- Widths of the counters in the index builders and of mesh indices: they count items of a file shorter than 2^32 bytes, and the model's are unbounded.
- Panic forwarding between goroutines, slab capacities, and releasing a parser's buffers after joining.
- The choice of how many ranges to use for the indexes, which depends on the processor count: the results hold for every partition.
- StepParser.ScalarHandle: conversions are parameters, so the tree of a number is whatever they return.
- Reading profile points, breps, face sets and half-spaces, and building placement matrices: a solid's reader is a function of the budget left, with a charge; a profile is a polygon, and a placement any matrix, or any function on points.
- GeoSolid.IsClosedManifold: index arithmetic is unbounded where the source's is 32 bits wide.
- GeoTriangulate.TriangulatePolygon: the non-finite check before the coverage check is not modelled.
- GeoBuild.BuildScene: between two reads of the cache a worker touches only its own mesh and budget, so an item is replayed up to the cell it waits for; world boxes, identifiers and statistics are left out, and only the cells' order of claiming is interleaved.
- GeoMeshLaws.ElementWithinShares: `slack` is bookkeeping the source does not keep; it is what was charged with nothing left to charge it to.
- GeoMeshing.BoxFollows: an item's box is some function of the bounds of the point lists it reads; the walk over its points is not modelled.
- GeoMeshing.TessellateFollows: a clip's operator and half-space tests are folded into whether it has a first operand and what its cut returns.
- PlanarBoundary.BridgeOpenBoundary: the gap is compared by squares.
- PlanarTouch.EdgesCrossOrOverlap: lengths are compared by squares, and so are distances to a ring.
- PlanarGrid.Grid.constructor: the number of cells along the longer side, a capped square root in the source, is any positive number.
- PlanarStitch.StitchRings: the re-orientation after the area test is dropped, since the area is positive there.
- PlanarNesting.PolygonsFromLoops: what is promised of all loops is that each is placed once and holes lie in outers; that the nesting is right is for simple loops, so not for one that passes through a vertex of its own twice.
- Classifying the pieces of a planar union (`unionBoundarySegs`), and the area gate of `unionPolygonTriangles`.
- Rasterizing fabric and footprints into the occupancy slice, the world-point cache, the axis vote and the measures of a facing.
- GeoOccupancy.RunProbe: the direction's length and unit vector are parameters.
- GeoOccupancy.BandGridDims: an out-of-range float conversion is taken to yield any machine integer.
- GeoFacing.BuildFacings: an element's facing is an arbitrary function of the element and its band's key.
- StoreyPlans.StoreyOf: called only where the walk ends, because elsewhere the source does not return; `StoreyPlans.HaltsIffNotRound` says exactly where.
- Which elements belong to a storey's plan, their outlines, and dropping degenerate loops.
- Schema lookups, property sets, materials, quantities, drawing and file output.
