# Models of the ccdl metadata compiler and of the googletest algorithms it ships with

The project describes, in Dafny, the algorithms of this repository that are easy to get wrong, and
proves what they do. `dafny verify dfyconfig.toml` checks everything.

**The metadata compiler.** A module tree is laid out in one flat block. The sizing pass moves a cursor
over everything and collects the strings; the writing pass moves the same cursor again and stores
records, pointer arrays and index arrays. The passes disagree about where the string pool goes, so that
they need the same room is a theorem about aligned layouts (`MetaLayout`), with an exact condition
(`PassesAgree`). The block (`MetaBlock`) is a sequence of byte cells that know which object they are a
part of; a reader that only follows pointers recovers the module (`MetaModel` says what there is to
recover, `MetaBuilders` proves that the written block decodes to it and from which regions, `MetaReferences` when
the stored indexes lead to the right objects, `MetaValues` that a reader of the stored constants and default
arguments gets the values of their expressions). The platform is a parameter: alignment 4 or 8 and any record sizes.

**Names and types.** `Namespaces` is the tree of namespaces with its parsing of qualified names: objects
that point to each other, tied to a forest of values on which the laws are proved. `MetaResolvers` is
the lazy resolution of types from the recovered records: mutually recursive methods that register an
interface before they build its methods. The ghost argument `busy` names the interfaces that are being
worked on; from outside it is empty. What can be fetched at all depends on the namespaces that
`InitializeModule` marked (`FetchableIff`).

**googletest.** Edit scripts and unified diffs (`EditDistance`, `UnifiedDiff`, `DiffText`), the simple regular
expressions (`SimpleRegex`), UTF-8 and UTF-16 (`Utf8`), string literals (`StringLiteral`), CDATA sections
(`Cdata`), filters (`GlobFilter`), sharding (`Sharding`), and the registry of test cases with
registration, filtering, shuffling, running and unshuffling (`Shuffling`, `UnitTests`, `UnitTestImpls`).
Readers of the written formats are defined from the standards: sections 3 and 4 of RFC 3629, section 2.2
of RFC 2781, sections 2.14.3 and 2.14.5 of ISO/IEC 14882:2011, sections 2.4, 2.7 and 4.6 of XML 1.0.

**Primes.** A sieve, trial division, trial division by odd numbers and a hybrid that all decide the same
predicate (`Primes`).

Where a natural claim is false of the code, the code is kept and the exact condition is proved:
`PassesAgree`, `IndexesLeadIffClosed`, `FullNameParsesBackIff`, `FetchableIff`, `MinimalIffNoLosingTie`,
`ScriptIsMinimalIff`, `CreateUnifiedDiff`, `FullMatchIsWholeMatch`, `Utf16ToUtf8`, `ReadsBackIff`, `ConstantIsKeptIff`
and `DefaultIsKeptIff` are if-and-only-if statements; `NotAlwaysMinimal`, `ColonDoesNotParseBack`, `WaitingInVain`,
`EscapedDollarIsNoAnchor`, `NulBeforeDigit` and `DefaultsAreLost` give inputs. Default arguments lose their radix, and
those of type String or of an enumeration lose their value, because `WriteMetaParameter` has no branch for them. The comment on `RE::Init` says that the full pattern ends
with a dollar sign that anchors it (external/googletest/src/gtest-port.cc:928-929); it does not if that
dollar sign is escaped. The comment on the edit script promises a minimal one. The scripts for all
prefixes are minimal exactly when no cell of the table is a losing tie; the script that is returned is
minimal exactly when every edit on the walk back leads to a neighbour of least distance, and a losing tie
elsewhere does it no harm (`LosingTieMayBeAvoided`).

Loops that the source nests in one function are separate methods where each deserves a contract of its
own. A string is the characters of a C string before its NUL, except in `Utf8` and `StringLiteral`, which
work on bytes. Integers are unbounded except where the width decides the result: the random generator,
code points, bytes, the eight-bit number of stars of a pointer type.

## Model

| member | source | states |
|---|---|---|
| `MetaBuilders.MetaBuilder.Build` | src/ccdl/metadata/MetaBuilder.cpp:76-98 | For every module without predeclared parts, both passes end at the same address; following the pointers of the finished block from its start gives back the whole module; what is read on the way is exactly the regions that were handed out, apart from each other and from the string pool; and in the block every index of every record leads by pointers to the record of its object if and only if the module is closed. In a closed module every stored constant and default argument reads, by its type record, as the value of its expression as far as its type has a place for it. The block starts with the magic number and its size. Otherwise nothing is built |
| `MetaBuilders.PassesAgree` | src/ccdl/metadata/MetaBuilder.cpp:100-166 | The writing pass, which puts the string pool before the records, ends at base + size exactly if and only if the size of a type record is a multiple of the alignment |
| `MetaBuilders.WrittenRegions` | src/ccdl/metadata/MetaBuilder.cpp:342-419 | The regions of the header, its arrays, the pool and every record and array lie aligned and pairwise disjoint inside the block that the sizing pass counted; without that of the pool they are the regions from which `Build` and `WriteMetaComponent` say the objects of the block are read |
| `MetaLayout.SizesAgree` | src/ccdl/metadata/MetaBuilder.cpp:329-340 | The two orders of the layout, pool last and pool first, take the same room if and only if the records end aligned |
| `MetaLayout.RunShifts` | src/ccdl/metadata/MetaBuilder.cpp:31-38 | Shifting the start of an aligned layout by a multiple of the alignment shifts its end by the same amount |
| `MetaLayout.RunFromAligned` | src/ccdl/metadata/MetaBuilder.cpp:353-389 | Where a layout starts matters only up to alignment: records after an unaligned pool go where they would go from the aligned address |
| `MetaLayout.LastChunkDecides` | src/ccdl/metadata/MetaBuilder.cpp:320-333 | Whether the layout ends aligned depends on the size of the last record alone |
| `MetaLayout.RegionsAreDisjoint` | src/ccdl/metadata/MetaBuilder.cpp:421-447 | What a moving cursor hands out is aligned, in order and never overlaps |
| `MetaBlock.ObjectsDoNotOverlap` | src/ccdl/metadata/MetaBuilder.cpp:421-447 | Two objects that can both be loaded from a block are the same object or share no byte |
| `MetaBlock.ArrayKeeps` | src/ccdl/metadata/MetaBuilder.cpp:394-418 | What has been decoded from an array stays the same while free space is filled later |
| `MetaBlock.MethodsKeep` | src/ccdl/metadata/MetaBuilder.cpp:607-632 | A decoded method keeps its meaning under every later write into free space |
| `MetaBlock.InterfacesKeep` | src/ccdl/metadata/MetaBuilder.cpp:558-605 | A decoded interface, with its nested indexes, constants and methods, keeps its meaning under later writes |
| `MetaBlock.NamespacesKeep` | src/ccdl/metadata/MetaBuilder.cpp:634-689 | A decoded namespace keeps its meaning under later writes |
| `StringPools.StringPool.Add` | src/ccdl/util/StringPool.cpp:55-65 | A new string goes NUL-terminated to the end, a known or null one changes nothing, and every string stays where it was |
| `StringPools.PlacedReads` | src/ccdl/util/StringPool.cpp:82-93 | Once the pool data lies in the block, reading at the offset of a string gives that string |
| `MetaBuilders.MetaBuilder.CalculateMetadataSize` | src/ccdl/metadata/MetaBuilder.cpp:100-105 | The sizing pass counts the header, the records and the pool last, and leaves every string of the module in the pool |
| `MetaBuilders.MetaBuilder.CalculateMetaComponent` | src/ccdl/metadata/MetaBuilder.cpp:107-166 | The cursor after sizing, and all strings known |
| `MetaBuilders.MetaBuilder.CalculateMetaInterface` | src/ccdl/metadata/MetaBuilder.cpp:215-244 | The cursor moves over the chunks of the interface, and its strings are known |
| `MetaBuilders.MetaBuilder.CalculateMetaMethod` | src/ccdl/metadata/MetaBuilder.cpp:264-283 | The same for a method and its parameters |
| `MetaBuilders.MetaBuilder.CalculateMetaNamespace` | src/ccdl/metadata/MetaBuilder.cpp:285-307 | The same for a namespace, whose index arrays are aligned to four |
| `MetaBuilders.MetaBuilder.CalculateMetaEnumeration` | src/ccdl/metadata/MetaBuilder.cpp:183-202 | The same for an enumeration and its enumerators |
| `MetaBuilders.MetaBuilder.CalculateMetaCoclass` | src/ccdl/metadata/MetaBuilder.cpp:168-181 | The same for a coclass |
| `MetaBuilders.MetaBuilder.CalculateMetaConstant` | src/ccdl/metadata/MetaBuilder.cpp:246-262 | The same for a constant; string values and enumerator names go into the pool |
| `MetaBuilders.MetaBuilder.StringReads` | src/ccdl/metadata/MetaBuilder.cpp:798-802 | For every string of the pool, what WriteString returns points at that string in the block |
| `MetaBuilders.MetaBuilder.WriteMetaComponent` | src/ccdl/metadata/MetaBuilder.cpp:342-419 | The block decodes to the module, each record and each array is read from the region that the layout gives it, the pool lies in its own, and the cursor is where the writing order puts it |
| `MetaBuilders.MetaBuilder.WriteMetaInterface` | src/ccdl/metadata/MetaBuilder.cpp:558-605 | The record and its three arrays decode to the interface, nothing earlier changes, and the cursor moves over exactly the chunks that were counted |
| `MetaBuilders.MetaBuilder.WriteMetaMethod` | src/ccdl/metadata/MetaBuilder.cpp:607-632 | The same for a method and its parameters |
| `MetaBuilders.MetaBuilder.WriteMetaParameter` | src/ccdl/metadata/MetaBuilder.cpp:691-756 | The same for a parameter, with the value and the attributes of its default by type |
| `MetaBuilders.MetaBuilder.DefaultUnion` | src/ccdl/metadata/MetaBuilder.cpp:702-753 | Which member of the union a default argument fills, and with which flags, by the branches of the source |
| `MetaBuilders.MetaBuilder.WriteMetaConstant` | src/ccdl/metadata/MetaBuilder.cpp:449-517 | The same for a constant, with value and attributes by type |
| `MetaBuilders.MetaBuilder.ConstantUnion` | src/ccdl/metadata/MetaBuilder.cpp:455-512 | Which member of the union a constant fills, and with which radix or flags, by the branches of the source |
| `MetaValues.AllValuesMean` | src/ccdl/codegen/CodeGenerator.cpp:610-690 | In a block that reads as a closed module, the reader of values, which knows type records and attribute bits only, gets for every constant and default argument the value its expression has in its type: a long from the long, a number or the one infinity or NaN it is, the text, the enumerator |
| `MetaValues.ConstantReadsAs` | src/ccdl/metadata/MetaBuilder.cpp:449-517 | A constant of a numeric type, of String or of an enumeration keeps its value and radix; one of a reference, a pointer, ECode or HANDLE reads as zero |
| `MetaValues.DefaultReadsAs` | src/ccdl/metadata/MetaBuilder.cpp:691-756 | A default argument of a numeric type keeps its value but not its radix, and reads as hexadecimal; a pointer keeps its address; a string or an enumerator is lost |
| `MetaValues.ConstantIsKeptIff` | src/ccdl/metadata/MetaBuilder.cpp:449-517 | A constant reads as its own value if and only if its type is numeric, String or an enumeration, or the value is zero anyway |
| `MetaValues.DefaultIsKeptIff` | src/ccdl/metadata/MetaBuilder.cpp:691-756 | A default argument reads as its own value if and only if it is a number that needs no radix or is not written in octal or decimal, or a pointer, or the value is zero anyway |
| `MetaValues.DefaultsAreLost` | src/ccdl/metadata/MetaBuilder.cpp:702-752 | The default argument 10 reads as 0xa, and the default argument "a" of a String as no string |
| `MetaValues.FlagsRead` | src/ccdl/metadata/MetaBuilder.cpp:466-494 | Infinities, NaN and notation come back from their bits, and the bits leave the radix alone |
| `MetaValues.TypeFound` | src/ccdl/metadata/MetaBuilder.cpp:758-796 | The index stored for a type of the module leads to the type record of that type |
| `MetaBuilders.MetaBuilder.WriteMetaEnumeration` | src/ccdl/metadata/MetaBuilder.cpp:519-542 | The same for an enumeration |
| `MetaBuilders.MetaBuilder.WriteMetaEnumerator` | src/ccdl/metadata/MetaBuilder.cpp:544-556 | The same for an enumerator |
| `MetaBuilders.MetaBuilder.WriteMetaNamespace` | src/ccdl/metadata/MetaBuilder.cpp:634-689 | The same for a namespace with its four index arrays; external members are counted |
| `MetaBuilders.MetaBuilder.WriteMetaCoclass` | src/ccdl/metadata/MetaBuilder.cpp:421-447 | The same for a coclass and its interface indexes |
| `MetaBuilders.MetaBuilder.WriteMetaType` | src/ccdl/metadata/MetaBuilder.cpp:758-796 | The same for a type: one reference and then one pointer are peeled off, and the index is looked up in the array its kind selects |
| `MetaBuilders.MetaBuilder.WriteIndexes` | src/ccdl/metadata/MetaBuilder.cpp:441-444 | Each entry becomes the position of the first occurrence of the object, or -1 |
| `MetaBuilders.MetaBuilder.IsValid` | src/ccdl/metadata/MetaBuilder.cpp:51-74 | True exactly if no interface and no enumeration is only predeclared |
| `MetaReferences.IndexesLeadIffClosed` | src/ccdl/metadata/MetaBuilder.cpp:558-796 | In a block that reads as its module, every index of every record, those of type records and of array elements included, is in range and its slot leads by pointers to the record of the object it stands for, if and only if the module is closed under its references |
| `MetaReferences.TablesArrive` | src/ccdl/metadata/MetaBuilder.cpp:394-418 | From the component record, slot k of each of the five tables leads to the record of the object that is the k-th of its kind in the module |
| `MetaReferences.SlotDecoded` | src/ccdl/metadata/MetaBuilder.cpp:394-418 | What an array decodes to is, slot by slot, what its pointers lead to |
| `MetaReferences.LookedUp` | src/ccdl/ast/Pool.cpp:249-259 | An index that was looked up leads to its object exactly if the object is in the table |
| `MetaReferences.TypeIndexLeads` | src/ccdl/metadata/MetaBuilder.cpp:758-796 | The index of a type record leads into the table its kind selects, and that of an array element into the types, exactly if what is left after one reference and one pointer, and the element, are there |
| `MetaResolvers.TypePool.FindType` | src/ccdl/ast/Pool.cpp:232-247 | Ends on every array-free component with acyclic bases, by the number of unregistered interfaces and the depth of bases; the interface it returns is the one registered under the name; registered interfaces keep their objects; every finished interface refers to known types only |
| `MetaResolvers.MetaResolver.Resolve` | src/ccdl/metadata/MetaResolver.cpp:60-75 | Searches the first namespace with the path only; an interface found is registered under the name when it returns |
| `MetaResolvers.MetaResolver.ResolveType` | src/ccdl/metadata/MetaResolver.cpp:84-105 | Enumerations come before interfaces; an enumeration is built without registering anything |
| `MetaResolvers.MetaResolver.BuildInterface` | src/ccdl/metadata/MetaResolver.cpp:125-158 | The interface is registered before its methods are built and is the registered one at the end; its base is the one the metadata gives, its methods have the types of the stored ones; afterwards its base and its types are known |
| `MetaResolvers.MetaResolver.BuildBase` | src/ccdl/metadata/MetaResolver.cpp:134-145 | Null exactly if the stored index is -1, otherwise the interface registered under the name of the base, taken from the pool or, where the pool cannot fetch it, resolved directly |
| `MetaResolvers.MetaResolver.BuildMethod` | src/ccdl/metadata/MetaResolver.cpp:170-194 | The method has the stored name, return type, parameter names and attributes, and parameter types, each type with its name and its stars; all of them are known afterwards |
| `MetaResolvers.MetaResolver.BuildType` | src/ccdl/metadata/MetaResolver.cpp:196-285 | The object answered has the name of the type and one star for each pointer level, or the name of what the resolver remembers, where the type is the one remembered; the type is known afterwards; a pointer needs something to point to that is known or can be fetched, as the source dereferences it |
| `MetaResolvers.TypePool.RequestType` | src/ccdl/ast/Pool.cpp:232-247 | After a request from outside, every interface reachable by bases and method types from a registered one is registered too, however the references circle, provided no interface is named like a primitive type; walking to the bases of an answered interface passes exactly the interfaces that the metadata has for bases and ends; its methods have the names and types of the stored ones |
| `MetaResolvers.TypePool.constructor` | src/ccdl/ast/Module.cpp:66-82 | A new pool knows the fifteen primitive types and nothing else, and is ready for every request |
| `MetaResolvers.MetaResolver.TypeString` | src/ccdl/metadata/MetaResolver.cpp:199-263 | The name by which a type is asked for: that of its kind, or namespace and name of the interface or enumeration |
| `MetaResolvers.ChainIsRight` | src/ccdl/metadata/MetaResolver.cpp:134-145 | Walking from any interface of the pool to its bases passes, step by step, objects named like the bases in the metadata, null after the last, and ends |
| `MetaResolvers.BasesAreReached` | src/ccdl/metadata/MetaResolver.cpp:134-145 | The object n steps up has the name of the n-th base |
| `MetaResolvers.ChainLength` | src/ccdl/metadata/MetaResolver.cpp:134-145 | The walk to the bases ends, by their ranks |
| `MetaResolvers.ReachableIsRegistered` | src/ccdl/metadata/MetaResolver.cpp:125-158 | Along any way of references from a registered interface, the last interface is registered, while nothing is being worked on |
| `MetaResolvers.BasesRegistered` | src/ccdl/metadata/MetaResolver.cpp:134-145 | All bases of a registered interface are registered, even while it is being worked on |
| `MetaResolvers.PointeesServed` | src/ccdl/metadata/MetaResolver.cpp:265-282 | What the methods of a registered interface point to is known or can be fetched: primitive types, fetchable types, the interface itself and its bases |
| `MetaResolvers.AskingAgain` | src/ccdl/ast/Pool.cpp:232-237 | Asking for an interface a second time gives the same object and resolves nothing |
| `MetaResolvers.NestedIsNeverFetched` | src/ccdl/ast/Pool.cpp:239-242 | A type whose qualifier has more than one component is never asked for, because the whole qualifier is compared with short names |
| `MetaResolvers.WaitingInVain` | src/ccdl/ast/Pool.cpp:239-242 | The type a::b::I is not asked for although a namespace b is waiting inside a |
| `MetaResolvers.InitializeModule` | src/ccdl/metadata/MetaResolver.cpp:51-58 | Parses the path of every namespace of the metadata and marks exactly the namespaces that the paths lead to |
| `MetaResolvers.FetchableIff` | src/ccdl/ast/Pool.cpp:239-245 | In an initialised pool a type can be fetched if and only if the metadata has it and the first namespace with the qualifier as short name, wherever it stands in the tree, is one to which a path of the metadata leads |
| `MetaResolvers.GlobalIsNeverFetched` | src/ccdl/metadata/MetaResolver.cpp:77-82 | A type in the global namespace is never fetched, because its empty path is parsed as another namespace |
| `MetaResolvers.CompiledFits` | src/ccdl/metadata/MetaResolver.cpp:134-205 | In what is read back from the block of a closed module whose namespaces list their own interfaces, whose methods return something and which has no arrays, every index that the resolver follows is in range |
| `MetaResolvers.LocatedHasName` | src/ccdl/metadata/MetaResolver.cpp:60-105 | What is located under a qualified name is an interface with that namespace and that name |
| `MetaResolvers.MissingLess` | src/ccdl/ast/Pool.cpp:77-86 | Registering an interface makes one fewer missing: the measure of the recursion |
| `MetaResolvers.FinishedIsClosed` | src/ccdl/metadata/MetaResolver.cpp:150-157 | An interface whose references are known leaves the list of those being worked on |
| `Namespaces.FullNameParsesBackIff` | src/ccdl/ast/Pool.cpp:159-211 | Parsing the full name of a namespace gives that namespace and adds nothing, exactly if each name on its path is separable and none is __global__ |
| `Namespaces.SeparableIff` | src/ccdl/ast/Pool.cpp:159-190 | A name is separable exactly if it is null, or not empty, without a separator in it and without a colon at its end |
| `Namespaces.ColonDoesNotParseBack` | src/ccdl/ast/Pool.cpp:159-190 | The full name of a namespace called a: does not parse back to it |
| `Namespaces.MarkedIffLedTo` | src/ccdl/metadata/MetaResolver.cpp:77-82 | After the paths have been parsed, the marked namespaces are exactly those to which one of the paths leads |
| `Namespaces.ParseArrives` | src/ccdl/ast/Pool.cpp:159-211 | Parsing keeps the tree acyclic with unique inner names, removes nothing, and gives the namespace whose path is the components of the name |
| `Namespaces.ParseAgain` | src/ccdl/ast/Pool.cpp:159-211 | Parsing the same name again changes nothing and gives the same namespace |
| `Namespaces.EmptyNameIsNotGlobal` | src/ccdl/ast/Pool.cpp:191-200 | The empty name gives an inner namespace with an empty name, not the global one |
| `Namespaces.ComponentsOfJoined` | src/ccdl/ast/Pool.cpp:159-190 | The names come back from the joined text if and only if each of them is separable |
| `Namespaces.WalkFinds` | src/ccdl/ast/Pool.cpp:159-211 | Going down the names of a namespace from the global one leads to it and adds nothing |
| `Namespaces.Pool.ParseNamespace` | src/ccdl/ast/Pool.cpp:159-211 | The loop does to the tree what walking the components does, and returns the namespace reached |
| `Namespaces.Pool.FindOrAdd` | src/ccdl/ast/Pool.cpp:168-185 | Finds the first inner namespace with the name, or makes one in the pool and below its outer namespace |
| `Namespaces.Pool.FindNamespace` | src/ccdl/ast/Pool.cpp:147-157 | The first namespace of the pool with the short name, or null if there is none |
| `Namespaces.Namespace.FindNamespace` | src/ccdl/ast/Namespace.cpp:65-75 | The first inner namespace with the name, or null |
| `Namespaces.Namespace.AddNamespace` | src/ccdl/ast/Namespace.cpp:55-63 | Appends the inner namespace and sets its outer one |
| `Namespaces.Namespace.ToString` | src/ccdl/ast/Namespace.cpp:147-157 | The names from the outside in, each with a separator, down from the global namespace |
| `EditDistance.MinimalIffNoLosingTie` | external/googletest/src/gtest.cc:1088-1113 | With a side under 100000 elements, the scripts for all prefixes are minimal if and only if no cell has add equal to remove below replace |
| `EditDistance.NoLosingTieIsMinimal` | external/googletest/src/gtest.cc:1088-1125 | Without such a cell the script for the whole inputs has as few edits as the Levenshtein distance |
| `EditDistance.ScriptIsMinimalIff` | external/googletest/src/gtest.cc:1088-1125 | The script for the whole inputs is minimal if and only if every edit on the walk back from the last cell leads to a neighbour of least distance |
| `EditDistance.LosingTieMayBeAvoided` | external/googletest/src/gtest.cc:1100-1124 | From abax to bab there is a losing tie, but the walk back does not come past it and the script is minimal |
| `EditDistance.NeverBelowLev` | external/googletest/src/gtest.cc:1070-1125 | The script never has fewer edits than the Levenshtein distance |
| `EditDistance.NotAlwaysMinimal` | external/googletest/src/gtest.cc:1100-1110 | From aba to bab the tie makes three edits where two suffice |
| `EditDistance.LevIsLower` | external/googletest/src/gtest.cc:1070-1125 | No script that turns one text into the other has fewer edits than the reference distance |
| `EditDistance.LevIsReached` | external/googletest/src/gtest.cc:1070-1125 | Some script has exactly that many |
| `EditDistance.PathTransforms` | external/googletest/src/gtest.cc:1115-1124 | The script consumes all of left, produces all of right, and matches equal elements only |
| `EditDistance.PathCosts` | external/googletest/src/gtest.cc:1077-1113 | The last cell of the table is 100000 times the edits plus the replacements |
| `EditDistance.CalculateOptimalEdits` | external/googletest/src/gtest.cc:1070-1125 | The filled tables walked back give the specified script |
| `EditDistance.FillBorder` | external/googletest/src/gtest.cc:1077-1086 | The first row and column hold the costs of adding and of removing everything |
| `EditDistance.FillCell` | external/googletest/src/gtest.cc:1090-1111 | One more cell holds its cost and its move |
| `EditDistance.WalkBack` | external/googletest/src/gtest.cc:1115-1124 | From the last cell back to the corner, reversed |
| `EditDistance.CalculateLineEdits` | external/googletest/src/gtest.cc:1146-1160 | The script for lines is the script for their ids |
| `EditDistance.InternalStrings.GetId` | external/googletest/src/gtest.cc:1130-1142 | Equal lines get equal ids, different lines different ones |
| `EditDistance.SamePath` | external/googletest/src/gtest.cc:1146-1160 | Two pairs of texts with the same pattern of equal elements have the same script |
| `UnifiedDiff.CreateUnifiedDiff` | external/googletest/src/gtest.cc:1245-1305 | Replaying the printed hunks in order on left gives right if and only if the context is at least one or the texts are equal; for lines without line breaks and NULs the same holds of the text of the diff, read back. Each hunk starts with exactly as many common lines as the context and the text before its first edit allow, ends with as many as the context and the matches behind its last edit allow, and prints removals before additions between two common lines; all edits are in hunks, and between two hunks lie at least two contexts of matches |
| `UnifiedDiff.NextHunk` | external/googletest/src/gtest.cc:1252-1303 | One round of the outer loop: the hunk starts with matched lines only, as many as the context and the text allow, covers the edits it walks over, ends with its suffix, and replays from where the last one ended |
| `UnifiedDiff.PushEdits` | external/googletest/src/gtest.cc:1267-1295 | The inner loop pushes the lines of the edits, joins edits with fewer than two contexts of matches between them, and stops with its suffix pushed before the next hunk can touch it |
| `UnifiedDiff.SharedIff` | external/googletest/src/gtest.cc:1267-1295 | Two successive edits are in one hunk if and only if fewer matches than two contexts lie between them |
| `UnifiedDiff.PrintedRight` | external/googletest/src/gtest.cc:1177-1234 | Printed lines with removals first and the text of their steps keep the common lines of both ends of the hunk |
| `UnifiedDiff.SameStart` | external/googletest/src/gtest.cc:1177-1193 | Regrouping removals and additions moves no common line at the start of a hunk |
| `UnifiedDiff.SameEnd` | external/googletest/src/gtest.cc:1177-1193 | Nor one at the end |
| `UnifiedDiff.OneMoreCut` | external/googletest/src/gtest.cc:1252-1303 | One more hunk, found behind matches only, keeps the hunks apart and all edits covered |
| `UnifiedDiff.PrefixFits` | external/googletest/src/gtest.cc:1260-1265 | The context in front of a hunk lies after the hunk before it and consists of matches |
| `UnifiedDiff.HunkReplays` | external/googletest/src/gtest.cc:1195-1234 | A printed hunk takes the text from its first to its last edit; the header counts are those of its lines |
| `UnifiedDiff.LinesSpell` | external/googletest/src/gtest.cc:1283-1294 | The lines pushed for a stretch of edits spell exactly the stretches of both texts |
| `UnifiedDiff.RemovalFirst` | external/googletest/src/gtest.cc:1177-1193 | Putting a removal before pending additions changes neither side nor the counts |
| `UnifiedDiff.Hunk.PushLine` | external/googletest/src/gtest.cc:1177-1193 | What was pushed and what will be printed have the same text on both sides, the same common lines and the same counts, with removals before additions between two common lines |
| `UnifiedDiff.Hunk.PrintTo` | external/googletest/src/gtest.cc:1195-1234 | Appends the header in decimal numbers, each side only if it has edits, and the lines; the counts equal the numbers of printed lines of each side; removals stand before additions between two common lines |
| `UnifiedDiff.TextSaysTheSame` | external/googletest/src/gtest.cc:1168-1234 | Replaying the text of a diff is replaying its hunks, if no line of the two texts holds a line break or a NUL |
| `DiffText.DiffReads` | external/googletest/src/gtest.cc:1195-1234 | The text of hunks whose lines hold no line break and no NUL reads back as exactly those hunks |
| `DiffText.HeaderReads` | external/googletest/src/gtest.cc:1214-1227 | A header line, with one side, with both or with none, reads back as its ranges |
| `UnifiedDiff.MatchRun` | external/googletest/src/gtest.cc:1253-1258 | Over a run of matches both texts agree |
| `SimpleRegex.FullMatchIsWholeMatch` | external/googletest/src/gtest-port.cc:890-932 | FullMatch means that the whole text is in the language of the pattern, for every text, if and only if the pattern does not end with an escaped dollar sign |
| `SimpleRegex.EscapedDollarIsNoAnchor` | external/googletest/src/gtest-port.cc:925-931 | The pattern of a backslash and a dollar sign makes FullMatch accept a dollar sign followed by x |
| `SimpleRegex.FullPatternMeans` | external/googletest/src/gtest-port.cc:913-931 | The pattern built by Init has the same items, pinned to the start, and pinned to the end unless it ends with an escaped dollar sign |
| `SimpleRegex.RE.constructor` | external/googletest/src/gtest-port.cc:901-932 | The fields after Init for a null, an invalid and a valid pattern |
| `SimpleRegex.RE.FullMatch` | external/googletest/src/gtest-port.cc:890-892 | True exactly if the pattern is valid and the pinned pattern is contained |
| `SimpleRegex.RE.PartialMatch` | external/googletest/src/gtest-port.cc:896-898 | True exactly if the pattern is valid and some substring is in its language, within its pins |
| `SimpleRegex.ValidateRegex` | external/googletest/src/gtest-port.cc:742-796 | Accepts exactly the sequences of atoms with optional repetitions, with the anchors at the ends only; null is invalid |
| `SimpleRegex.MatchRegexAtHead` | external/googletest/src/gtest-port.cc:832-858 | True exactly if some prefix is in the language of the items, reaching the end if pinned |
| `SimpleRegex.MatchRepetitionAndRegexAtHead` | external/googletest/src/gtest-port.cc:805-827 | True exactly if the repeated atom followed by the rest matches some prefix |
| `SimpleRegex.MatchRegexAnywhere` | external/googletest/src/gtest-port.cc:868-880 | True exactly if the text contains a match within the pins of the pattern; null matches nothing |
| `SimpleRegex.PunctuationIs` | external/googletest/src/gtest-port.cc:695-698 | Punctuation are exactly the printable characters that are no blank, letter or digit |
| `SimpleRegex.WordCharactersAre` | external/googletest/src/gtest-port.cc:701-704 | The one word character that is punctuation is the underscore; the others are the letters and digits |
| `SimpleRegex.WhiteSpaceIs` | external/googletest/src/gtest-port.cc:700 | White space is the blank and the five controls from tab to carriage return, and shares no character with the other classes |
| `SimpleRegex.ComplementsAre` | external/googletest/src/gtest-port.cc:713-727 | The escaped upper-case classes match what the lower-case ones do not; which characters those match, by code |
| `SimpleRegex.ControlEscapes` | external/googletest/src/gtest-port.cc:718-724 | The five control escapes stand for five different characters, each of them white space |
| `SimpleRegex.LiteralAtoms` | external/googletest/src/gtest-port.cc:728-731 | An escaped punctuation and an unescaped character match themselves only; the dot matches all but the newline |
| `SimpleRegex.EscapeIsValidIff` | external/googletest/src/gtest-port.cc:707-709 | An escape is supported if and only if it matches some character |
| `SimpleRegex.RepetitionsAre` | external/googletest/src/gtest-port.cc:699 | The three repetition characters, each with its own meaning, are punctuation |
| `SimpleRegex.OneEscape` | external/googletest/src/gtest-port.cc:832-880 | A pattern of one supported escape is valid and is found in a one-character text exactly if it matches the character |
| `SimpleRegex.PinnedOrEscaped` | external/googletest/src/gtest-port.cc:832-839 | A valid tail ending with a dollar sign is pinned unless an odd number of backslashes stands before it |
| `Utf8.ValidIffCodePoints` | external/googletest/src/gtest-printers.cc:379-412 | A NUL-free byte string is accepted if and only if it is a concatenation of what CodePointToUtf8 gives for scalar values other than 0, and there is only one such list |
| `Utf8.Utf16ToUtf8` | external/googletest/src/gtest.cc:1864-1885 | For NUL-free UTF-16, the result decodes, and to the scalar values of the input, if and only if every surrogate is paired |
| `Utf8.IsValidUTF8` | external/googletest/src/gtest-printers.cc:379-412 | The loop accepts exactly what the decoder decodes |
| `Utf8.AcceptedIffEncoded` | external/googletest/src/gtest-printers.cc:379-412 | A string is decoded if and only if it is the encoding of scalar values |
| `Utf8.EncodeAllDecodes` | external/googletest/src/gtest.cc:1800-1826 | Decoding an encoding gives the code points back exactly if they are scalar values |
| `Utf8.DecodeIsScalars` | external/googletest/src/gtest-printers.cc:385-408 | What is decoded are scalar values, without surrogates and overlong forms, and encodes to the same bytes |
| `Utf8.CodePointToUtf8` | external/googletest/src/gtest.cc:1800-1826 | The bytes in the buffer up to the first NUL: nothing for 0, four bytes up to 1FFFFF, a message beyond |
| `Utf8.WideStringToUtf8` | external/googletest/src/gtest.cc:1864-1885 | Pairs are joined when characters are 16 bits wide; the text ends at the first NUL or the given number of characters, whichever comes first, and is empty for a negative number other than -1 |
| `Utf8.HexIs` | external/googletest/src/gtest.cc:2005-2009 | The hexadecimal digits in the message are those of the code point, in upper case and without leading zeros |
| `Utf8.CodePointsOfUtf16` | external/googletest/src/gtest.cc:1835-1849 | Joining the pairs of the UTF-16 form of scalar values gives the scalar values |
| `StringLiteral.ReadsBackIff` | external/googletest/src/gtest-printers.cc:265-287 | The printed text is always a valid sequence of literals, and it reads back as the printed bytes if and only if no NUL is followed by an octal digit |
| `StringLiteral.NulBeforeDigit` | external/googletest/src/gtest-printers.cc:148-149 | A NUL before the digit 1 is printed as an octal escape that reads as the byte 1 |
| `StringLiteral.PrintCharsAsStringTo` | external/googletest/src/gtest-printers.cc:265-287 | The loop writes the quoted body and reports whether a hexadecimal escape was needed |
| `StringLiteral.NoDigitAfterHex` | external/googletest/src/gtest-printers.cc:273-278 | After a hexadecimal escape the next character is never a hexadecimal digit, thanks to the quote break |
| `StringLiteral.ElementReads` | external/googletest/src/gtest-printers.cc:146-191 | A printed byte is read as that byte, unless it is a NUL before an octal digit |
| `StringLiteral.HexEscapeIff` | external/googletest/src/gtest-printers.cc:146-191 | A byte gets a hexadecimal escape if and only if it is neither printable nor NUL nor the value of a simple escape |
| `StringLiteral.FormatIs` | external/googletest/src/gtest-printers.cc:146-210 | Which bytes are printed as they are and which as a simple escape, whose value is the byte |
| `StringLiteral.HexTextIs` | external/googletest/src/gtest-printers.cc:183-187 | Hexadecimal digits are in upper case, without a leading zero |
| `StringLiteral.BreakIff` | external/googletest/src/gtest-printers.cc:273-278 | The bytes before which the literal is broken are exactly those whose printed form starts with a hexadecimal digit of the reader |
| `StringLiteral.NulSwallows` | external/googletest/src/gtest-printers.cc:148-149 | A NUL before octal digits is read as one longer octal escape, which swallows them |
| `Cdata.CDataReadsBack` | external/googletest/src/gtest.cc:3698-3715 | Reading the written text as CDATA sections and character data gives the input back, for every input |
| `Cdata.OutputXmlCDataSection` | external/googletest/src/gtest.cc:3698-3715 | The loop writes the sections between the occurrences of the end mark |
| `Cdata.WrittenMarks` | external/googletest/src/gtest.cc:3698-3715 | The marks written around an empty text and around an end mark, letter by letter |
| `Cdata.EndsThere` | external/googletest/src/gtest.cc:3698-3715 | No section closes early: no end mark arises where a segment meets the end mark written after it |
| `GlobFilter.PatternMatchesIffInGlob` | external/googletest/src/gtest.cc:506-521 | The matcher decides whether the text can be cut into one fitting piece for each character of the segment before the first colon |
| `GlobFilter.MatchesFilter` | external/googletest/src/gtest.cc:523-542 | True exactly if some colon-separated segment matches |
| `GlobFilter.FilterMatchesTest` | external/googletest/src/gtest.cc:546-572 | True exactly if the positive part, or everything if it is missing, matches and the negative part does not |
| `GlobFilter.SegmentsAreTheParts` | external/googletest/src/gtest.cc:523-542 | There is one way to write a list as colon-free texts joined by colons, and it is the one that is searched |
| `GlobFilter.FullNameIs` | external/googletest/src/gtest.cc:547-551 | The name that is filtered is the test case, a dot and the test |
| `GlobFilter.DashIsComplement` | external/googletest/src/gtest.cc:552-567 | A leading dash selects exactly what the list after it does not select |
| `GlobFilter.ListsUnite` | external/googletest/src/gtest.cc:523-542 | A list of two lists matches what either matches |
| `GlobFilter.OnlyTheEmptyName` | external/googletest/src/gtest.cc:556-572 | An empty list matches the empty name only, so an absent negative part excludes no test |
| `GlobFilter.DeathTestNames` | external/googletest/src/gtest.cc:167-170 | The built-in list matches names that end with DeathTest or contain DeathTest/ |
| `GlobFilter.DisabledNames` | external/googletest/src/gtest.cc:163-165 | The built-in list matches names that start with DISABLED_ or contain /DISABLED_ |
| `Sharding.ShardSize` | external/googletest/src/gtest.cc:5357-5420 | The number of tests a shard gets, in closed form |
| `Sharding.ShardsPartition` | external/googletest/src/gtest.cc:5357-5420 | Together the shards run as many tests as are runnable |
| `Sharding.OneShardEach` | external/googletest/src/gtest.cc:5357-5420 | A runnable test is selected by one shard index and no other, any other test by none |
| `Sharding.ShardsAreBalanced` | external/googletest/src/gtest.cc:5357-5420 | The sizes of two shards differ by at most one, and an earlier one is not the smaller |
| `UnitTestImpls.UnitTestImpl.FilterTests` | external/googletest/src/gtest.cc:5357-5420 | All marks of every test by filter, disabled names and shard; a test case should run if and only if one of its tests should; the result counts the selected tests |
| `UnitTestImpls.MarksAreTheSelection` | external/googletest/src/gtest.cc:5357-5420 | Taken in order, the marks are the selection of this shard among the runnable tests |
| `UnitTests.FilterTestCase` | external/googletest/src/gtest.cc:5380-5418 | The inner loop for the tests of one test case |
| `UnitTests.FilterTest` | external/googletest/src/gtest.cc:5386-5416 | The four marks of one test |
| `UnitTestImpls.UnitTestImpl.GetTestCase` | external/googletest/src/gtest.cc:5071-5104 | Finds the test case or registers it: behind the last death test or at the end; the tests stay unshuffled and the death tests a prefix |
| `UnitTestImpls.UnitTestImpl.AddTestInfo` | external/googletest/src/gtest-internal-inl.h:655-675 | Registers a test with its test case and leaves all other test cases alone |
| `UnitTestImpls.UnitTestImpl.ShuffleTests` | external/googletest/src/gtest.cc:5540-5552 | The new order of test cases, the new orders of tests and the new state of the generator are exactly the arrangement of the old ones: death tests among themselves, then the others, then the tests of each test case; everything stays permuted, and test cases and tests do not move |
| `UnitTestImpls.UnitTestImpl.UnshuffleTests` | external/googletest/src/gtest.cc:5555-5562 | Restores the order of registration of test cases and tests |
| `UnitTestImpls.UnitTestImpl.RunTests` | external/googletest/src/gtest.cc:5211-5216 | Runs exactly the tests that should run, each once, death tests first, in the sequence the current arrangement gives them |
| `UnitTestImpls.UnitTestImpl.RunAllTests` | external/googletest/src/gtest.cc:5183-5247 | Every iteration runs the selected tests once each, death tests first, in a sequence that depends only on the registered tests, the selection and the seed of that iteration, which is the next one (`SeedAtIs`), or nothing if setting up its environments failed fatally, and leaves the order restored |
| `UnitTestImpls.UnitTestImpl.RunIteration` | external/googletest/src/gtest.cc:5183-5241 | One iteration: the sequence run is that of the seed alone, whatever was run before, nothing runs after a fatal failure in the set-up, and the order of registration is back afterwards |
| `UnitTestImpls.SeedsContinue` | external/googletest/src/gtest.cc:5232-5246 | Starting with the seed of iteration n repeats the seeds of all the iterations from n on, so a failure can be seen again without the iterations before it |
| `UnitTestImpls.SeedAtIs` | external/googletest/src/gtest-internal-inl.h:146-152 | The seed of iteration k in closed form: the seeds 1 to 99999 in order, and again from 1 |
| `UnitTestImpls.EverySeedOnce` | external/googletest/src/gtest-internal-inl.h:146-152 | Any 99999 successive iterations use every seed exactly once |
| `UnitTestImpls.UnshuffledPlan` | external/googletest/src/gtest.cc:5211-5216 | Without shuffling the selected tests run in the order of registration |
| `UnitTestImpls.UnitTestImpl.RunOrderPermutes` | external/googletest/src/gtest-internal-inl.h:592-597 | Each test case has one place in the shuffled order, and the death tests have the first places |
| `UnitTestImpls.UnitTestImpl.GetMutableTestCase` | external/googletest/src/gtest-internal-inl.h:592-597 | The test case at a place of the order, null outside |
| `UnitTestImpls.InsertKeeps` | external/googletest/src/gtest.cc:5086-5100 | Inserting behind the last death test keeps the death tests a prefix and the names different |
| `UnitTests.TestCase.Run` | external/googletest/src/gtest.cc:2810-2835 | Runs the tests of the test case that should run, each once, in the current order of the test case |
| `UnitTests.TestCase.ShuffleTests` | external/googletest/src/gtest.cc:2844-2846 | The positions of the tests stay a permutation |
| `UnitTests.TestCase.UnshuffleTests` | external/googletest/src/gtest.cc:2849-2853 | The positions are in order again |
| `UnitTests.TestCase.AddTestInfo` | external/googletest/src/gtest.cc:2804-2807 | Appends the test and its position |
| `Shuffling.StateComesBack` | external/googletest/src/gtest.cc:353-368 | The state of the generator before a step can be computed from the one after it |
| `Shuffling.NextStateIsOneToOne` | external/googletest/src/gtest.cc:353-368 | No two states have the same successor |
| `Shuffling.EveryStateIsNext` | external/googletest/src/gtest.cc:353-368 | Every state is the successor of some state |
| `Shuffling.EveryOrderIsReached` | external/googletest/src/gtest-internal-inl.h:308-326 | Every order of a range is what a shuffle gives for some random numbers |
| `Shuffling.ShuffledByGenerator` | external/googletest/src/gtest-internal-inl.h:308-326 | The shuffle by the generator is the shuffle by the random numbers it gives |
| `Shuffling.ShuffledPermutes` | external/googletest/src/gtest-internal-inl.h:308-326 | A shuffle permutes the range and moves nothing else |
| `Shuffling.ShuffleRange` | external/googletest/src/gtest-internal-inl.h:308-326 | The loop does the specified swaps with the specified random numbers, so equal seeds give equal orders |
| `Shuffling.Random.Generate` | external/googletest/src/gtest.cc:353-368 | The next state of the generator, and a number below the range |
| `Shuffling.SelectPermutes` | external/googletest/src/gtest-internal-inl.h:592-597 | Reading a list at permuted positions gives the same elements |
| `Primes.PreCalculatedPrimeTable.CalculatePrimesUpTo` | external/googletest/samples/prime_tables.h:101-117 | After the sieve an entry is set exactly for the primes |
| `Primes.PreCalculatedPrimeTable.ClearMultiples` | external/googletest/samples/prime_tables.h:110-115 | Clearing from the square on takes one more divisor into account |
| `Primes.PreCalculatedPrimeTable.IsPrime` | external/googletest/samples/prime_tables.h:88-90 | True exactly for the primes up to the maximum |
| `Primes.PreCalculatedPrimeTable.GetNextPrime` | external/googletest/samples/prime_tables.h:92-98 | The next prime if it is in the table, otherwise -1 |
| `Primes.OnTheFlyPrimeTable.IsPrime` | external/googletest/samples/prime_tables.h:57-66 | Trial division decides primality |
| `Primes.OnTheFlyPrimeTable.GetNextPrime` | external/googletest/samples/prime_tables.h:68-74 | Ends, with the least prime above every argument that is not negative, and with -1 for the others |
| `Primes.IsPrime` | external/googletest/samples/sample1.cc:45-66 | Trial division by odd numbers, with the bound on the quotient, decides primality |
| `Primes.HybridPrimeTable.IsPrime` | external/googletest/samples/sample8_unittest.cc:61-66 | Decides primality whichever table answers |
| `Primes.HybridPrimeTable.GetNextPrime` | external/googletest/samples/sample8_unittest.cc:68-74 | The least prime above every argument that is not negative, whichever table answers |
| `Primes.LargerPrimeExists` | external/googletest/samples/prime_tables.h:68-74 | There is a prime above every number, so the search ends |
| `Primes.SquareRootSuffices` | external/googletest/samples/prime_tables.h:57-66 | No divisor below a number whose square is larger means prime |
| `Primes.SieveIsComplete` | external/googletest/samples/prime_tables.h:101-117 | Sieving up to the square root leaves exactly the primes |
| `Primes.CompositeSkipped` | external/googletest/samples/prime_tables.h:107-108 | Skipping a composite number leaves nothing uncleared |
| `Primes.NextPrimeIsUnique` | external/googletest/samples/prime_tables.h:49-51 | Tables that give a next prime give the same one |

## Left out

- Files, ELF sections, processes, pipes, sockets, clocks, locales, consoles, option parsing, the XML and JSON reports around CDATA sections, death test execution, and the POSIX branch of RE: input, output and foreign calls.
- Overflow of `int` counters, offsets, sizes and positions, and the cut of the metadata size from size_t to int; running out of memory in calloc, ArrayList and StringPool.
- The order in which StringMap hashes types: the types of a module are given as a sequence.
- How floating-point values and expressions are computed: `Expression` carries the values that the accessors return.
- The component record is stored in one piece once all its fields are known; the source fills its fields one by one. Its address and contents at the end are the same.
- Where a comparison of strings would compare a null string with an empty one the source reads through a null pointer; `Namespaces` calls them different names.
- Namespaces that wrap an interface, and whatever else the parser puts into a namespace besides inner namespaces; a null qualified name.
- Array types in the resolver: an array of an unregistered element is looked up by a name that need not exist.
- The interface object is made once its base has been built; the source makes it before, and nothing refers to it in between.
- That the base of an interface is the registered object is said when it is found; later its name and its own bases are claimed, as an interface may be built twice (see FindType).
- `FindType` also replaces the namespace of the type it resolved by the first namespace with that short name; types in the model keep the full name they were built with.
- MetaResolvers.TypePool.FindType: says nothing about which object stands for a type inside a method, because after a base has been resolved directly the remembered name and the remembered type belong to different interfaces; and a base whose methods mention the derived interface builds that interface twice, so identity is claimed only for what is registered at return.
- MetaResolvers.MetaResolver.BuildType: requires that what is pointed to is known or can be fetched, because the source dereferences a null base type otherwise. For whole components `Sound` asks for this in a form that does not depend on what was requested before: a method may point to primitive types, to types that can be fetched, to its own interface and to its bases.
- Namespaces looked up during resolution do not change: `TypePool` takes them as a list of short names with their resolved marks, as `EntriesOf` gives it for the tree after `InitializeModule`; parsing the same paths again during resolution leaves the tree alone (`ParseAgain`).
- StringMap, ArrayList and String of the ccdl utilities are maps, sequences and strings.
- Trigraphs in string literals, wide characters and the splitting of long arrays by the printers; newline normalisation and forbidden characters in XML.
- The fields, results and times of tests besides the four marks; listeners and exceptions around an iteration, and environments beyond whether setting them up fails fatally; reading the shard variables and the seed from the environment and the clock; repeating forever.
- `UnitTestImpl::GetTestCase(int)` for constant objects, which does not use the shuffled position.
- Aliasing of the vectors of positions: they are fields that ShuffleRange takes and gives back.
- `MetaSerializer`, the parser, the code generator, the constant expressions, queues and counters of the samples: they would add easy members only.
