# A Dafny model of four parts of the GNU C Library

The project models, and proves properties of, four independent parts of the
library's source tree:

- **argp** (`argp/argp-help.c`, `argp/argp-parse.c`, `argp/argp.h`).  A tree of
  option tables is flattened twice, once into the help option list (HOL) and once
  into getopt tables; usage patterns are enumerated by a tree-shaped odometer; and
  a callback protocol (INIT, options and arguments, NO_ARGS, END, SUCCESS or ERROR,
  FINI) runs over the tree.
- **The link-namespace check** (`conform/linknamespace.py`).  A worklist finds the
  symbols that a static link pulls in, with a chain of objects as witness for each.
- **Message catalogs** (`catgets/`, with the byte swap of `bits/byteswap.h`).  A
  column-hashed table, a file with both byte orders, its loader and the lookup.
- **Two small machines**: the JSON emitter of `benchtests/json-lib.c`, and the
  ancillary-data walk of `bits/socket.h` (sections 5.1 to 5.3 of RFC 3542).

Code that computes values is modelled by functions.  Code that updates state is
modelled by classes and loops, each proved to compute a specification function, and
what the code promises is then proved about that function.  User callbacks and
getopt are arbitrary functions of everything that happened before.

## Layout

| files | content |
|---|---|
| `Basics`, `Bits`, `Words`, `Cmsg` | absent values, bit operations on unbounded integers, words and bytes, control buffers |
| `CatalogTable`, `Catalog`, `CatalogFile` | the hashed table, the loader and catgets, files as gencat writes them |
| `JsonText`, `JsonEmitter`, `JsonTree` | a lexer and parser after RFC 8259, the emitter, and the trees it writes |
| `LinkNamespace` | the closure and its verdict |
| `Argp`, `ArgpTree` | option tables, trees of them, and their options in pre-order |
| `UsagePatterns` | the usage odometer |
| `HelpList`, `HelpOrder`, `HelpOrderCases`, `HelpClusters`, `HelpTree`, `HelpRepeats` | making the HOL, sorting it, what comes before what, printing cluster headers, and when a header repeats |
| `ParserTables`, `ParserArguments`, `ArgpOwnership` | the getopt tables, what they say about arguments, and their agreement with the HOL |
| `ParserRun`, `ParserMachine` | a run of the parser as functions, and as a mutable object that computes them |
| `ParserProtocol`, `ParserBalance`, `ParserOutcomes`, `ParserInputs`, `ParserDispatch` | callback order, conservation of arguments and quoting, refused options and arguments, hand-down of inputs and order along the tree, options in a run |

## Where the code differs from its comments or documentation

The model follows the code.

- `argp/argp-help.c:872-873`: entries without a short option sort before those
  with one, the opposite of the comment.
- `argp/argp-help.c:694-695`: sibling clusters of one group sort by descending index.
- `argp/argp-parse.c:706-710`: after ARGS, `next` becomes `argc` even if the callback
  changed it; `argp/argp.h:151-154` promises this only for an unchanged `next`.
- `argp/argp.h:138-140` says that no call follows ERROR; the code still sends FINI.
- `argp/argp.h:365-366` says that an unrecognised option yields ARGP_ERR_UNKNOWN; the
  code returns EINVAL.
- `argp/argp-parse.c:490` leaves out the prefix character when ARGP_NO_ARGS is set.
  `SizesSuffice` gives the exact condition under which the string still fits.
- `catgets/open_catalog.c:310-317` counts the tables in words where bytes are meant.
  `Accepted` and `EmptyCatalog` say what this does to files that gencat writes: only
  an empty catalog depends on the memory behind the file.
- `argp/argp-help.c:1176-1206`: a cluster whose first printed entry is a group header
  never gets its own header line; `Entered` in `HelpClusters` says so.

## Model

| member | source | states |
|---|---|---|
| `Words.ExpressionReverses` | bits/byteswap.h:44-46 | the mask-and-shift expression yields the word with its four bytes reversed, for all bytes |
| `Words.SwapMeetsOrder` | bits/byteswap.h:44-46 | a word read in the wrong byte order is the swapped word, and swapping it gives back what was stored |
| `Words.StoreSwapped` | catgets/gencat.c:971-973 | storing a swapped word in one byte order writes the bytes of the word in the other |
| `Cmsg.AlignRoundsUp` | bits/socket.h:242-243 | CMSG_ALIGN is the least multiple of the size_t width that is not below its argument, unless the rounding overflows size_t |
| `Cmsg.PaddingCompletesAlign` | bits/socket.h:248-252 | a length plus its padding is the aligned length |
| `Cmsg.NextExact` | bits/socket.h:260-296 | a next header is returned exactly if the current object is at least a header long and, rounded up, leaves room for another full header, and then it lies right behind, on the same alignment |
| `Cmsg.WalkIsSafe` | bits/socket.h:260-296 | for any length fields the walk ends, every header lies wholly inside the buffer, and each object ends before the next one starts |
| `Cmsg.MaxDataExact` | bits/socket.h:244-246 | the data lengths covered by the round trip are exactly those whose object fits in a control buffer |
| `Cmsg.RoundTrip` | bits/socket.h:238-296 | a buffer laid out with CMSG_SPACE and CMSG_LEN is walked back to exactly the objects written, in order |
| `CatalogTable.HashAgreesWithScan` | catgets/catgets.c:94-113 | if every occupied cell is in its hash column, the column search answers as a scan of the whole table does and never returns an empty cell |
| `CatalogTable.ScanMeaning` | catgets/catgets.c:102-113 | the scan returns a matching cell if there is one, and nothing only if no cell matches |
| `CatalogTable.HashExactly` | catgets/gencat.c:946-947 | the column is the product of set and message number modulo the plane size |
| `CatalogTable.FillSucceeds` | catgets/gencat.c:938-967 | entering messages by hash and collision depth, with columns deep enough, ends inside the table, leaves every cell in its hash column, columns without gaps, and exactly the messages, each with the offset of its text |
| `CatalogTable.FilledTableAnswers` | catgets/gencat.c:938-967 | in a filled table the column search finds exactly the cell of the message with the given numbers, and nothing if there is none |
| `Catalog.CatalogInfo.Open` | catgets/open_catalog.c:256-326 | success exactly for the files the acceptance predicate names, with dimensions, table and string base read in the host's order |
| `CatalogFile.MagicExactly` | catgets/open_catalog.c:256-275 | a file is taken for a catalog exactly if its first bytes are the magic number in one byte order, and swapped exactly if it is not the host's |
| `CatalogFile.AcceptsExactly` | catgets/open_catalog.c:301-323 | for any file and any memory behind it, the exact length and the exact place of a zero byte that the loader asks for |
| `Catalog.CatalogInfo.LargestOffset` | catgets/open_catalog.c:301-306 | the loop over every third word yields the largest offset of any cell |
| `Catalog.CatalogInfo.FindZero` | catgets/open_catalog.c:315-323 | the loop succeeds exactly if a zero byte comes within the allowed count |
| `Catalog.CatalogInfo.Catgets` | catgets/catgets.c:87-114 | the address of the first match in the message's column, or the default for numbers out of range and messages not there |
| `CatalogFile.BothTables` | catgets/gencat.c:971-1000 | whatever the writer's byte order, the file holds a little-endian and then a big-endian table |
| `CatalogFile.SomeMemory` | catgets/gencat.c:987-1003 | every well-formed catalog has a file, in either writer's byte order, that some memory holds |
| `CatalogFile.HeaderBack` | catgets/open_catalog.c:256-281 | every host finds out from the magic number whether to swap, and reads the dimensions the writer meant |
| `CatalogFile.Accepted` | catgets/open_catalog.c:256-326 | every catalog with a message is accepted on every host, for each pair of byte orders and any memory behind the file |
| `CatalogFile.EmptyCatalog` | catgets/open_catalog.c:308-323 | an empty catalog is accepted if and only if one of the next 30 bytes per table cell behind the file is zero |
| `CatalogFile.EmptyRefused` | catgets/open_catalog.c:315-323 | a catalog without messages that gencat writes and no host accepts, in memory without a zero byte behind the file |
| `CatalogFile.MessageReadBack` | catgets/catgets.c:87-114 | byte-order independence: on every host the lookup leads to the text that the logical catalog assigns, zero-terminated, and fails exactly for numbers that no message has |
| `JsonEmitter.JsonCtx.constructor` | benchtests/json-lib.c:23-29 | a context with the given indentation, no output and the bit set |
| `JsonEmitter.JsonCtx.DoIndent` | benchtests/json-lib.c:31-40 | appends exactly as many spaces as the level says, and changes nothing else |
| `JsonEmitter.JsonCtx.PutDocumentBegin` | benchtests/json-lib.c:42-51 | the whole state after the call, as the step function of the emitter defines it |
| `JsonEmitter.JsonCtx.PutDocumentEnd` | benchtests/json-lib.c:53-61 | the whole state after the call |
| `JsonEmitter.JsonCtx.AttrPrefix` | benchtests/json-lib.c:90-101 | separator, indentation and quoted name, with nothing else changed |
| `JsonEmitter.JsonCtx.PutAttrObjectBegin` | benchtests/json-lib.c:63-75 | the whole state after the call |
| `JsonEmitter.JsonCtx.PutObjectEnd` | benchtests/json-lib.c:77-88 | the whole state after json_attr_object_end or json_element_object_end |
| `JsonEmitter.JsonCtx.PutAttr` | benchtests/json-lib.c:90-140 | the whole state after any of the four scalar attribute calls |
| `JsonEmitter.JsonCtx.PutArrayBegin` | benchtests/json-lib.c:142-154 | the whole state after the call |
| `JsonEmitter.JsonCtx.PutArrayEnd` | benchtests/json-lib.c:156-163 | the whole state after the call |
| `JsonEmitter.JsonCtx.PutElement` | benchtests/json-lib.c:165-211 | the whole state after any of the four scalar element calls |
| `JsonEmitter.JsonCtx.PutElementObjectBegin` | benchtests/json-lib.c:213-227 | the whole state after the call |
| `JsonEmitter.StepKeepsInv` | benchtests/json-lib.c:42-240 | every properly nested call keeps the invariant: the bit says whether the innermost open container is empty, the text lexes to the tokens of the open containers, and the indentation is the start plus the depth |
| `JsonEmitter.RunKeepsInv` | benchtests/json-lib.c:23-240 | the invariant holds after every properly nested run |
| `JsonEmitter.RoundTrip` | benchtests/json-lib.c:23-240 | the text of every document emitted by properly nested calls parses to the value that the calls describe, and the indentation level is restored |
| `JsonEmitter.TextIsNumber` | benchtests/json-lib.c:103-140 | integers print as numbers of the RFC grammar |
| `JsonEmitter.ChunkExamples` | benchtests/json-lib.c:42-240 | the exact text of each call, separators, line breaks and indentation included, on one example each |
| `JsonTree.DecimalKeepsValue` | benchtests/json-lib.c:103-114 | the printed digits denote the number printed |
| `JsonTree.IntegersReadBack` | benchtests/json-lib.c:103-127 | every signed and unsigned integer is printed as a text that reads as exactly this integer, sign included |
| `JsonTree.TreeReadBack` | benchtests/json-lib.c:23-240 | every tree of names, strings, numbers, objects and arrays, written by the calls that walk it, parses to the same tree: same names in the same order, same strings, same integers; the indentation level is restored |
| `LinkNamespace.BuildTables` | conform/linknamespace.py:102-113 | for every object and symbol the three tables list exactly the symbols shown, the symbols strongly needed, and the defining objects |
| `LinkNamespace.OneSymbol` | conform/linknamespace.py:107-113 | a definition of either binding makes its object a definer, only a strong reference is a need, and everything but a weak definition is seen |
| `LinkNamespace.StartWork` | conform/linknamespace.py:180-185 | the first round starts from exactly the strong undefined symbols of the test object, each with the empty chain |
| `LinkNamespace.VisitSeen` | conform/linknamespace.py:194-197 | the symbols of an object are all covered afterwards, each with a shortest witness |
| `LinkNamespace.VisitStrong` | conform/linknamespace.py:198-202 | the symbols an object needs are all known afterwards, the new ones are the next frontier, each with a path of the right length |
| `LinkNamespace.VisitFile` | conform/linknamespace.py:190-202 | one object keeps the invariant of the round, seen before or not |
| `LinkNamespace.VisitSymbol` | conform/linknamespace.py:190-202 | the defining objects of one symbol, and no others, are added |
| `LinkNamespace.RunRound` | conform/linknamespace.py:188-203 | after a round, in any order of its symbols, the objects seen are all the definers of symbols within that distance |
| `LinkNamespace.Closure` | conform/linknamespace.py:156-203 | the loop ends; the needed symbols are the least set that contains the initial ones and is closed under "defined in an object that strongly needs"; the symbols covered are exactly the initial ones and those of reached objects; every recorded chain is a real dependency path with the fewest hops of all |
| `LinkNamespace.LeastIsUnique` | conform/linknamespace.py:187-203 | the least closed set is unique, so the order of iteration does not matter |
| `LinkNamespace.FirstIsShortest` | conform/linknamespace.py:194-202 | a chain recorded in the first round that reaches its symbol is as short as any chain to it |
| `LinkNamespace.Check` | conform/linknamespace.py:205-213 | the exit status is 0 exactly if every covered symbol starts with an underscore or is in the standard set with the whitelist, and otherwise 1 |
| `LinkNamespace.ReservedExactly` | conform/linknamespace.py:206-210 | reserved are names with a leading underscore, those of the standard, and the four whitelisted names |
| `UsagePatterns.CountLevels` | argp/argp-help.c:1486-1502 | one level byte for every argp in the tree that has alternatives |
| `UsagePatterns.AlternativesAreLines` | argp/argp-help.c:1519-1530 | the alternatives are the lines of the string, all of it and nothing else |
| `UsagePatterns.SelectAlternative` | argp/argp-help.c:1519-1530 | the search ends at exactly the alternative the level byte selects, and tells whether it is the last |
| `UsagePatterns.OwnPattern` | argp/argp-help.c:1511-1537 | what an argp itself writes, whether it has alternatives and whether this is the last one |
| `UsagePatterns.ArgsUsage` | argp/argp-help.c:1507-1560 | a call changes the level bytes of its own subtree and no others, as the odometer step says, writes the chosen alternatives of the subtree in pre-order, and moves the pointer past them |
| `UsagePatterns.ChildrenUsage` | argp/argp-help.c:1541-1543 | the same for the loop over the children, with the carry handed from each to the next |
| `UsagePatterns.AdvanceAddsOne` | argp/argp-help.c:1541-1559 | with advance set, the level vector as a mixed-radix number (first child least significant, own level above the children) grows by exactly one, or wraps from the last value to zero, and a carry is reported exactly on the wrap |
| `UsagePatterns.ValueInjective` | argp/argp-help.c:1507-1560 | different level vectors stand for different numbers |
| `UsagePatterns.LoopCounts` | argp/argp-help.c:1698-1748 | before call number k the levels stand for k, and the call reports the end exactly at the last combination |
| `UsagePatterns.EachCombinationOnce` | argp/argp-help.c:1698-1748 | every combination of alternatives is printed by exactly one call |
| `UsagePatterns.LoopEndsExactly` | argp/argp-help.c:1698-1748 | the loop ends if and only if no argp of the tree has more than CHAR_MAX + 1 alternatives |
| `UsagePatterns.UsageLoop` | argp/argp-help.c:1698-1748 | the patterns printed are as many as the product of the numbers of lines; each takes one line of every args_doc string, parents before children; every choice of lines occurs, and none twice if the lines of each string differ |
| `UsagePatterns.PrintedIsChosen` | argp/argp-help.c:1507-1560 | a call writes, of every args_doc string in pre-order, the line that the level vector selects |
| `UsagePatterns.TotalIsProduct` | argp/argp-help.c:1698-1748 | the number of calls is the product of the numbers of lines of all args_doc strings |
| `UsagePatterns.OwnMovesLast` | argp/argp-help.c:1541-1557 | an argp goes on to its next alternative only when all argps below it are back at their first |
| `UsagePatterns.LaterChildrenMoveLater` | argp/argp-help.c:1541-1543 | a child's subtree moves only when those of the children before it are back at their first alternatives |
| `HelpList.MakeHol` | argp/argp-help.c:433-502 | the entries hold exactly the options of the argp in order, each with its aliases, inherited group number and cluster; the letter string holds their letters without repetition, and every entry's pointer is where the letters before it end |
| `HelpList.GroupNumbers` | argp/argp-help.c:479-484 | a given group number is taken, an option without one stays in the group before it, a header without one starts the next, and every argp starts from 0 |
| `Argp.ShortExactly` | argp/argp.h:532-541 | a short option is one that is no documentation and whose key is a printable character |
| `HelpList.TakeEntry` | argp/argp-help.c:473-498 | an entry is a maximal run of aliases, and the letters added are those not in use yet |
| `HelpList.HolAppend` | argp/argp-help.c:920-1009 | the entries of both lists, in order; the invariant of the letter string and of all pointers holds for the merged list |
| `HelpList.MergeEntries` | argp/argp-help.c:965-999 | the merged letter string is that of both lists of options, and every moved entry points to its place in it |
| `HelpList.MergeOne` | argp/argp-help.c:976-997 | one entry's share of the merge |
| `HelpList.AppendLetters` | argp/argp-help.c:983-996 | exactly the letters the first list lacks are added, and the pointer into the second list keeps its place |
| `HelpList.ArgpHol` | argp/argp-help.c:1014-1034 | for every tree: the options of all argps in pre-order, every entry in the cluster that its argp's position in the tree determines, group numbers inherited within each argp only, and the letter-string invariant |
| `HelpList.ChildClusterExactly` | argp/argp-help.c:507-528 | a child listed with a group or a header gets a cluster of its own inside its parent's, with that group, header and index; any other is shown in its parent's |
| `HelpList.LettersDistinct` | argp/argp-help.c:473-498 | the letters of the shared string are pairwise distinct |
| `HelpList.DecodesUnshadowed` | argp/argp-help.c:553-576 | decoding by position yields precisely the short options of an entry that no option before them, in this or an earlier entry, shadows |
| `HelpOrder.GroupIsLex` | argp/argp-help.c:672-681 | groups compare as non-negative before negative, and by number within each |
| `HelpOrder.CousinIsLex` | argp/argp-help.c:700-721 | clusters of equal depth compare as their root-to-cluster paths do |
| `HelpOrder.ClusterIsLex` | argp/argp-help.c:725-755 | clusters of any depths compare in the prefix-first lexicographic order of their (group, index) paths |
| `HelpOrder.StringIsLex` | argp/argp-help.c:884-889 | names compare as their lower-cased character sequences |
| `HelpOrder.EntryIsLex` | argp/argp-help.c:796-895 | entries compare exactly as their keys do lexicographically, in all branches of the comparison |
| `HelpOrderCases.GroupOrder` | argp/argp-help.c:672-681 | groups 0 and up come in ascending order before the negative ones, -1 last |
| `HelpOrderCases.OuterGroupsDecide` | argp/argp-help.c:800-812 | the group of the outermost cluster, or of an entry outside clusters, decides first |
| `HelpOrderCases.OutsideFirst` | argp/argp-help.c:816-819 | then entries outside clusters come before entries in clusters |
| `HelpOrderCases.InnerClustersLater` | argp/argp-help.c:821-827 | a cluster's own entries come before those of clusters inside it |
| `HelpOrderCases.SiblingsDecide` | argp/argp-help.c:685-696 | everything in one of two sibling clusters comes before everything in the other, by group and then by descending index |
| `HelpOrderCases.OwnGroupsDecide` | argp/argp-help.c:829-833 | in one cluster, the entries' own groups decide |
| `HelpOrderCases.FirstLongExactly` | argp/argp-help.c:622-632 | the name that counts is that of the first option that has one and is not hidden |
| `HelpOrderCases.FirstShortExactly` | argp/argp-help.c:606-619 | the letter that counts is the first one the entry shows that is not hidden |
| `HelpOrderCases.CanonDocExactly` | argp/argp-help.c:767-783 | a documentation name counts as an option exactly if '-' is its first character behind white space, and is compared from its first letter or digit on |
| `HelpOrderCases.DocsLast` | argp/argp-help.c:836-846 | documentation that does not look like an option follows all options of its group and cluster |
| `HelpOrderCases.DashedDocSortsAsOption` | argp/argp-help.c:836-846 | documentation that looks like an option sorts exactly as an option would whose name is the part from the first letter or digit on |
| `HelpOrderCases.LowerExactly` | argp/argp-help.c:858-863 | characters are equal for the comparison exactly if they are the same or one letter in both cases |
| `HelpOrderCases.LettersDecide` | argp/argp-help.c:854-868 | options with letters are in alphabetical order, a lower-case letter before its capital |
| `HelpOrderCases.NameAgainstLetter` | argp/argp-help.c:856-875 | an option without a letter is placed by the first character of its name, before one whose letter is that character |
| `HelpOrderCases.LongNamesDecide` | argp/argp-help.c:877-890 | two options without letters and with the same first character are in the order of their names, case ignored |
| `HelpOrder.EntryCmpIsTotalPreorder` | argp/argp-help.c:785-895 | the comparison is reflexive, antisymmetric in sign, and transitive in the four cases its comment lists |
| `HelpClusters.ChildIsPrefix` | argp/argp-help.c:1162-1169 | being inside a cluster is the same as having its path as a prefix |
| `HelpClusters.ClustersAreContiguous` | argp/argp-help.c:907-913 | after sorting, everything inside a cluster stands together |
| `HelpClusters.DirectEntriesFirst` | argp/argp-help.c:907-913 | after sorting, the entries right in a cluster come before those of clusters inside it |
| `HelpClusters.CommaFindsEntry` | argp/argp-help.c:1184-1191 | what comma asks about the previous entry decides exactly whether the entry last printed lies outside the cluster |
| `HelpClusters.PrintedHeaders` | argp/argp-help.c:1175-1345 | for every list, sorted or not: one header line for each entry with option lines that enters a cluster with a header, in order |
| `HelpClusters.HeadersHaveText` | argp/argp-help.c:1186 | only headers with text are printed |
| `HelpClusters.LinesExactly` | argp/argp-help.c:1222-1300 | an entry has option lines exactly if some option of it is not hidden and has a name or a letter no earlier option claims, and is printed as a group header exactly if it has none and its first option has neither letter nor name |
| `HelpClusters.GroupHeaderSuppresses` | argp/argp-help.c:1294-1328 | right behind a printed entry of the same cluster, a group header included, no cluster header is printed |
| `HelpClusters.EntersOnce` | argp/argp-help.c:1184-1191 | in a sorted list whose clusters are unambiguous, a cluster is entered exactly by its first printed entry |
| `HelpClusters.HeadersWithoutRepeat` | argp/argp-help.c:1336-1345 | the header lines of such a list are those of the clusters that open with option lines, and none is printed twice |
| `HelpTree.UnambiguousExactly` | argp/argp-help.c:1014-1034 | no two clusters of a tree share parent, group and index if and only if the (group, index) pairs directly inside the list and directly inside each cluster are distinct, counting those of children merged into their parent's cluster |
| `HelpTree.HeadersOfTree` | argp/argp-help.c:1336-1345 | for every tree that meets this condition, and any sorted order of the list argp_hol makes for it, no cluster header is printed twice |
| `HelpRepeats.SamePathBetween` | argp/argp-help.c:796-895 | in a sorted list, only entries of clusters with the same path stand between two entries right in a cluster |
| `HelpRepeats.RepeatsExactly` | argp/argp-help.c:1184-1191 | in a sorted list, the header of a cluster whose printed entries all have option lines is printed twice if and only if a printed entry of another cluster with the same path stands between two of its own |
| `HelpTree.HeaderRepeats` | argp/argp-help.c:1184-1191 | a tree that does not meet it and whose sorted list prints a header twice |
| `ParserTables.FindLongOption` | argp/argp-parse.c:199-212 | the first entry with the name, or -1 exactly if there is none |
| `ArgpTree.PreOrder` | argp/argp-parse.c:397-408 | a group above another in the tree comes before it in the table, however many argps without a group lie between |
| `ParserTables.Converter.constructor` | argp/argp-parse.c:414-430 | empty tables with the prefix character of the flags |
| `ParserTables.Converter.ConvertOne` | argp/argp-parse.c:326-374 | one option's letter and colons, and its long name unless taken |
| `ParserTables.Converter.ConvertOwn` | argp/argp-parse.c:317-374 | the tables then hold the options of one more argp |
| `ParserTables.Converter.ConvertOptions` | argp/argp-parse.c:312-411 | the tables then hold the groups of a whole subtree in pre-order, each with the end of its letters, its child-input slots, and its parent and place below it |
| `ParserTables.Converter.ConvertChildren` | argp/argp-parse.c:402-408 | the same for the loop over the children |
| `ParserTables.ParserConvert` | argp/argp-parse.c:413-438 | the tables of a whole tree |
| `ParserTables.CalcSizes` | argp/argp-parse.c:453-478 | the exact numbers of groups and options of the tree, and one slot for every argp below the root, at least as many as the groups ask for |
| `ParserTables.SizesSuffice` | argp/argp-parse.c:490-515 | groups, long options and child inputs always fit in the storage; the short-option string fits if and only if ARGP_NO_ARGS is clear or some option does not take all three characters counted for it |
| `ParserArguments.ShortArguments` | argp/argp-parse.c:335-346 | behind the first occurrence of a letter stand no, one or two colons as the first option that declares it takes no, a required or an optional argument |
| `ParserArguments.LongArguments` | argp/argp-parse.c:353-358 | has_arg of a long name says the same of the first option with that name |
| `ParserArguments.OrderingCharacter` | argp/argp-parse.c:424-428 | the string starts with '-' for ARGP_IN_ORDER, with '+' for ARGP_NO_ARGS alone, and with the options otherwise |
| `ParserTables.SlotsAreDisjoint` | argp/argp-parse.c:386-395 | the child-input slots of different groups never overlap |
| `ParserTables.EncodeDecode` | argp/argp-parse.c:366-368 | group and key come back if and only if the key is a signed 24-bit number and the group number is below 127, and no value is then one of getopt's own -1, 1 and '?' |
| `ParserTables.LongTableIsFirst` | argp/argp-parse.c:348-372 | long names are pairwise distinct, and each belongs to its first occurrence in pre-order that is not documentation |
| `ParserTables.DispatchShort` | argp/argp-parse.c:735-751 | the group is the first whose letters end behind the first occurrence of the letter |
| `ParserTables.ShortGroup` | argp/argp-parse.c:741-745 | the same search as a function, for the specification of a run |
| `ParserTables.DispatchOwner` | argp/argp-parse.c:735-751 | a letter other than ':', '-' and '+' goes to the group that declares its first occurrence in pre-order, and nowhere exactly if nobody declares it |
| `ParserTables.DispatchFound` | argp/argp-parse.c:735-751 | a declared letter is always dispatched, to the group that its first declaration lies in |
| `ArgpOwnership.MakeBoth` | argp/argp-help.c:1014-1034 | help list and parser tables made from the same tree list the same options in the same order |
| `ArgpOwnership.ShownIsDispatched` | argp/argp-parse.c:735-751 | the option that shows a letter in the help output is the one it is dispatched for if and only if it is not an alias of a documentation option, and the group is then that of the same argp |
| `ArgpOwnership.DispatchedIsShown` | argp/argp-help.c:553-576 | conversely every dispatched letter is shown by an entry of the same argp, unless an alias of a documentation option carries it |
| `ArgpOwnership.LongOptionGoesHome` | argp/argp-parse.c:752-758 | the value getopt returns for a long name decodes to the group and key of the first option in pre-order with that name, and is none of getopt's own results |
| `ParserMachine.Parser.constructor` | argp/argp-parse.c:517-528 | the state before the first INIT |
| `ParserMachine.Parser.GroupParse` | argp/argp-parse.c:247-263 | the callback's answer with the state it leaves, or ARGP_ERR_UNKNOWN with the state unchanged for a group without parser |
| `ParserMachine.Parser.SweepUp` | argp/argp-parse.c:596-600 | the loops from first to last group that stop on a failure |
| `ParserMachine.Parser.SweepDown` | argp/argp-parse.c:601-604 | the loops from last to first group that stop on a failure |
| `ParserMachine.Parser.TellAllUp` | argp/argp-parse.c:641-643 | the loop that tells ERROR to all |
| `ParserMachine.Parser.TellAllDown` | argp/argp-parse.c:659-661 | the loop that tells FINI to all |
| `ParserMachine.Parser.OfferArg` | argp/argp-parse.c:686-702 | the loop that offers one argument refines the specification of a run |
| `ParserMachine.Parser.ParseArg` | argp/argp-parse.c:676-723 | parser_parse_arg refines the specification of a run |
| `ParserMachine.Parser.ParseOpt` | argp/argp-parse.c:727-782 | the value getopt returned is decoded with the tables, letters by position and long options by their high bits, and only the callback of that group is called, as in the specification of a run |
| `ParserMachine.Parser.AskGetopt` | argp/argp-parse.c:804-841 | what getopt reports and the state it leaves, with `try_getopt` and `quoted` updated at the end of the options |
| `ParserMachine.Parser.PastOptions` | argp/argp-parse.c:845-861 | arguments behind the options refine the specification of a run |
| `ParserMachine.Parser.ParseNext` | argp/argp-parse.c:788-873 | one round refines the specification of a run |
| `ParserMachine.Parser.Finalise` | argp/argp-parse.c:580-669 | result, end_index and all final calls refine the specification of a run |
| `ParserMachine.ArgpParse` | argp/argp-parse.c:880-926 | a whole parse refines the specification of a run, including a failed initialisation, and gives a result whenever callbacks leave `next` and `argc` alone and getopt runs out of options |
| `ParserProtocol.InitialiseOrder` | argp/argp-parse.c:531-554 | initialisation makes INIT calls only, in pre-order, and if it succeeds every group with a parser had one |
| `ParserProtocol.CompleteOrder` | argp/argp-parse.c:592-607 | unless a callback fails, NO_ARGS goes to exactly the groups that processed nothing and END to all |
| `ParserProtocol.ReportOrder` | argp/argp-parse.c:632-657 | an error is told to all groups, and a result of success means that all heard SUCCESS |
| `ParserProtocol.FinaliseOrder` | argp/argp-parse.c:580-669 | finalisation keeps the order of the protocol, and every group with a parser gets its FINI |
| `ParserProtocol.Delivery` | argp/argp-parse.c:580-669 | who hears what at the end, and which result is handed back: 0 only if all heard SUCCESS and, with no argument left, all heard END and exactly the idle groups NO_ARGS; no NO_ARGS in any other case; a parsing error unchanged, an unrecognised option or unclaimed arguments as EINVAL |
| `ParserProtocol.Protocol` | argp/argp-parse.c:880-926 | in every run whose initialisation succeeds all calls are in protocol order, every group with a parser gets INIT and FINI, groups without get nothing, and the result is never ARGP_ERR_UNKNOWN |
| `ParserProtocol.OneGroup` | argp/argp.h:126-174 | one group sees INIT first and only once, then options and arguments, then at most one NO_ARGS, one END, one report, and FINI last and only once |
| `ParserProtocol.KeySequence` | argp/argp.h:126-140 | which keys may follow which in the calls of one group, key by key |
| `ParserProtocol.Directions` | argp/argp-parse.c:596-661 | which keys reach parents first and which children |
| `ParserProtocol.NeverBoth` | argp/argp-parse.c:632-657 | SUCCESS and ERROR never occur in the same run |
| `ParserProtocol.GroupsInTurn` | argp/argp-parse.c:596-661 | groups hear INIT, NO_ARGS and ERROR in the order of the table, and END, SUCCESS and FINI in the reverse |
| `ParserProtocol.NobodyPassedOver` | argp/argp-parse.c:531-661 | in every run, also one that fails in initialisation, a group hears INIT, ERROR, END, SUCCESS or FINI only if all groups whose turn comes before have heard it |
| `ParserBalance.OfferAsks` | argp/argp-parse.c:686-702 | an argument is offered to the groups in order, as ARG and then as ARGS, stops at the first that does not refuse, and goes to all exactly if it is refused |
| `ParserOutcomes.CallEffect` | argp/argp-parse.c:247-263 | a callback changes exactly the fields of the state that it says, and a group without a parser nothing |
| `ParserOutcomes.AcceptedExactly` | argp/argp-parse.c:704-720 | for arbitrary callbacks: ARGS consumes everything, the accepting group is credited with what was passed over, and if `next` is not past the argument nobody is credited and getopt gets another try |
| `ParserOutcomes.RefusalsExactly` | argp/argp-parse.c:833-870 | a refusal is put down to an argument exactly if the round is not about an option |
| `ParserOutcomes.OptionFails` | argp/argp-parse.c:727-873 | in every run, an option that getopt rejects, that no table entry owns or that its owner refuses ends the parse with EINVAL, one on which its owner fails with the owner's error, and ERROR goes to every group |
| `ParserOutcomes.EndIndexGiven` | argp/argp-parse.c:586-626 | end_index is set exactly if the caller wants it and parsing did not fail |
| `ParserOutcomes.EndIndexExactly` | argp/argp-parse.c:609-615 | it is then the first position not consumed, also after a complete parse |
| `ParserOutcomes.ArgumentRefused` | argp/argp-parse.c:845-926 | in every run, the argument all groups refuse is the one end_index names, and without end_index ends in EINVAL and ERROR to every group |
| `ParserOutcomes.FirstRoundAsks` | argp/argp-parse.c:517-554 | whatever the INIT callbacks do, the first round asks getopt |
| `ParserOutcomes.NoArgsStops` | argp/argp-parse.c:845-853 | with ARGP_NO_ARGS no group is offered an argument behind the options |
| `ParserOutcomes.OffersExactly` | argp/argp-parse.c:845-861 | without it an argument behind the options is offered, and nothing once they are used up |
| `ParserOutcomes.QuotesExactly` | argp/argp-parse.c:817-832 | a `--` counts as the end of the options exactly if getopt stops right behind it, past the program name |
| `ParserBalance.Credit` | argp/argp-parse.c:704-720 | an accepted argument is credited to the group that took it and no other: one position for ARG, all remaining ones for ARGS |
| `ParserBalance.ArgBalance` | argp/argp-parse.c:676-723 | accepted, an argument keeps positions and credits in balance; refused, it is put back |
| `ParserBalance.Conservation` | argp/argp-parse.c:788-873 | in every run, after any number of rounds without a failure, the position is what getopt moved over plus the sum of all groups' processed arguments |
| `ParserBalance.RefusedArgument` | argp/argp-parse.c:845-861 | an argument behind the options that every group refuses is the one end_index names |
| `ParserBalance.RefusedInOrder` | argp/argp-parse.c:863-869 | the same for an argument that getopt hands over in order |
| `ParserBalance.LoopEnds` | argp/argp-parse.c:845-861 | once getopt has reported the end, the loop is over after at most one round per remaining argument and one more |
| `ParserBalance.ParseEnds` | argp/argp-parse.c:920-921 | every parse ends, within a round for each answer of getopt and each argument, if callbacks leave `next` and `argc` alone and getopt runs out of options |
| `ParserBalance.QuotingStarts` | argp/argp-parse.c:817-833 | the state in which getopt leaves the parser after a `--` is behind the quoted region |
| `ParserBalance.QuotedStaysQuoted` | argp/argp-parse.c:794-843 | if callbacks from then on leave `next` and `argc` at or behind the quoted region, whatever they did before, getopt never sees an argument behind a processed `--` again, even after a rewind |
| `ParserBalance.QuotingLasts` | argp/argp-parse.c:794-843 | from any state in which getopt meets the `--`, that call of getopt is the last, under the same condition on later callbacks |
| `ParserBalance.QuotingInRuns` | argp/argp-parse.c:794-926 | the same for every run of the parser and every round in which the `--` is met |
| `ParserBalance.ScannedAgainExactly` | argp/argp-parse.c:712-843 | for arbitrary callbacks: getopt is asked again after a `--` if and only if some round starts with try_getopt set, at or after a round that started with `next` before the quoted region |
| `ParserBalance.ShortenedVectorIsScannedAgain` | argp/argp-parse.c:706-719 | a run on the arguments `-- x` in which a callback never touches `next` but shortens `argc`, and getopt is asked a second time: a condition on `next` alone is not enough |
| `ParserInputs.Store` | argp/argp-parse.c:540-549 | an INIT call writes only the slots of its own group |
| `ParserInputs.InputOf` | argp/argp-parse.c:531-539 | a group reads its input from the slot its parent has for exactly this child |
| `ParserInputs.HandDown` | argp/argp-parse.c:531-554 | the loop makes the INIT calls of the run and stops at one that fails; every group reached has the input that its parent's INIT, made before, left in the slot of exactly this child; the root's is the caller's |
| `ParserInputs.InputExactly` | argp/argp-parse.c:536-546 | from a parent with a parser a child reads what was stored for exactly this child, or nothing; from one without, the first child alone reads its parent's input |
| `ParserInputs.AncestorsAndDescendants` | argp/argp-parse.c:531-661 | in every run of the tables of a tree, a group hears INIT, NO_ARGS and ERROR after each group above it, at any distance, and END, SUCCESS and FINI before it |
| `ParserInputs.TreeInTurn` | argp/argp-parse.c:531-661 | a group hears INIT or ERROR only after every group with a parser above it has, and END, SUCCESS or FINI only after every group with a parser below it has |
| `ParserDispatch.OptionsAreAnswers` | argp/argp-parse.c:727-782 | in every run option callbacks and options returned by getopt correspond one to one: each callback directly follows the answer it decodes, with the group and key the tables give |
| `ParserDispatch.LettersGoHome` | argp/argp-parse.c:735-751 | in every run of the tables of a tree, the callback for a letter is that of the first argp in pre-order that declares it |
| `ParserDispatch.LongsGoHome` | argp/argp-parse.c:752-758 | in every run, the callback for a value of the long-option table has the group and key of the first option in pre-order with that name |

## Left out

- Output streams: `argp/argp-fmtstream.c` and the layout of help text (margins, columns, line breaks); printed text is a sequence of pieces.
- Help filters, translation, `fill_in_uparams`, `ARGP_HELP_FMT`, `argp_doc`, `hol_usage` and `arg`: they change the text of an entry, not which entries, letters, headers and patterns are printed.
- `hol_set_group` for the help and version options, and the default and version argps that `__argp_parse` wraps around the user's: the model starts from the tree as given.
- Exit calls, error messages and `ARGP_PARSE_ARGV0`'s adjustment of the vector; the vector starts at the first argument to look at.
- Allocation failure: the ENOMEM paths of `parser_init`, `make_hol` and `catopen`.
- The bodies of getopt, qsort and strcasecmp: getopt is an arbitrary oracle whose position stays between 0 and `argc` where a property needs it, qsort is any sorted order, strcasecmp compares lower-cased characters.
- Locale: `isprint`, `isalnum` and `tolower` are those of the C locale.
- `group_cmp` and the index difference of sibling clusters are computed without `int` overflow, which would need group numbers more than 2^31 apart.
- The arrays of a HOL and of the parser tables are modelled as sequences and pointers into them as offsets; in-place reallocation is not modelled.
- ParserMachine.ArgpParse: follows at most `rounds` rounds of the loop, for any `rounds`, because callbacks may keep the original going forever; ParseEnds says when they cannot.
- ParserMachine.Parser.ParseOpt: a group number outside the table counts as an unrecognised option, where the C code would read past the array; LongsGoHome covers the keys and group numbers for which the encoding is exact.
- HelpRepeats.RepeatsExactly: leaves out clusters in which a group header is printed; there a cluster can be entered again without a header line.
- ParserBalance.QuotedStaysQuoted: gives a sufficient condition on the callbacks; the condition that is also necessary is that of ScannedAgainExactly, on the states of the run.
- HelpOrder.StringIsLex: names do not contain a NUL character, as C strings.
- CatalogFile.MessageReadBack: files below 2^62 bytes, dimensions that fit their 32-bit fields, message texts without NUL, and set times message number within int, as the hash expression demands.
- Catalog.CatalogInfo.Catgets: wants a plane size other than 0 and a product within int, since the C expression is undefined otherwise; the descriptor -1, which yields the default string, is left to the caller.
- NLSPATH expansion, file opening, mmap and read, `catopen` and `catclose`: environment and resources.
- The search of gencat for good table dimensions and its parsing of message files: any dimensions with deep enough columns are covered.
- A size_t other than 64 bits in the catalog loader, and a wrap-around of its loop counter for tables near 2^64 words.
- `CMSG_DATA`, and size_t widths other than 4 and 8 bytes.
- The text form of a witness chain: chains are kept as an initial symbol with a list of (object, symbol) hops.
- Compiler and readelf runs and the reading of their output in `conform/`: the model starts from the symbol tuples.
- The text of a floating-point number: json_attr_double and json_element_double take the text that printf produced, and infinities and NaN, which are no JSON, are excluded by the round trip.
- JsonEmitter.JsonCtx.DoIndent: the local buffer at an indentation of UINT_MAX, whose length computation wraps, is not modelled.
- Escapes in JSON strings: the emitter writes none, so the round trip is for names and strings that need none.
