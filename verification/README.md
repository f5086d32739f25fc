# PTX front end: symbol table and lossless parser

A Dafny model of two components of the PTX front end, with proofs that their fast or recovering implementations meet
simple specifications on every input.

**The lexical symbol table.** A declaration stands for one spelling or, as a compact group `%r<8>`, for `%r0` to `%r7`.
Each scope keeps two exact maps, a character trie of group bases, and a 32-level binary trie of member numbers per base
with cached minima. `NumericMemberIndex`, `ParameterizedPrefixIndex`, `ScopeNameIndex`, `SymbolTable` and
`SymbolTableBuilder` are classes that update these structures step by step. Each is proved against linear scans over the
stored symbols (`LexicalBinding`, `BindingPass`), and the properties the table is for are proved about those scans: lookup,
the overlap test, exact reports of collisions and repetitions, source order, conservation of symbols, declarations and
references, and when each use is looked up in the block it stands in.

**The lossless parser.** `PtxLexer` attaches trivia over raw pieces, `PtxCstParser` buffers tokens with two places of
lookahead, and the parsing methods consume them. Every method is proved equal to a function of the token stream. About
those functions it is proved that parsing and printing constant expressions and initializers are exact inverses under an
exact height budget, that a section takes its true matching brace, that recovery never passes an anchor and always makes
progress, that on every input the items of a module and of every body tile exactly the tokens they should, and that a tree
without recovery is read exactly where it is laid out.

## Reading order

| files | content |
|---|---|
| Common, MemberNames, Symbols | shared types; spellings of groups and the first-member theorem |
| NumericMemberTrie, ParameterizedPrefixTrie, ScopeIndex | the indexes of one scope |
| LexicalBinding, BindingPass, CollectingPass, BlockScopes, SourceOrder, BoundModule | the specification of binding and its properties |
| MentionedNames, EventOrder, LookupMeaning | names, lexical order and lookup, stated by leaves, places and enclosing scopes |
| DeclarationLog, SymbolLog, ScopeLog, ReferenceLog, InvalidNumbers | what a bound module keeps and reports of what was written |
| SymbolTables, SymbolTableBuilders | the indexed table and the imperative two-pass build |
| IntegerMagnitude, IntegerSpellings | integer spellings |
| Tokens, Lexer, TokenBuffer | tokens, trivia, lookahead, losslessness |
| ConstantGrammar, ConstantInversion, DepthBudgets, ConstantTheorems, ConstantLayers, ConstantRefusals, ConstantParser | constant expressions |
| InitializerGrammar, InitializerInversion, InitializerLayers, InitializerParser | initializers and numeric operands |
| SectionGrammar, SectionParser | sections |
| Recovering, RecoveryBoundaries, SourceTree, SourceKinds, Drivers, DriverTheorems, DriverInversion, DriverRefusals, ModuleParser | recovery, source trees, the body and module drivers |

## What turned out to be conditional

- The binding pass can throw on a block without a scope: when two sibling blocks have one source range, the second is
  searched in the scope of the first (`BoundModule.RepeatedRangeThrows`). It throws exactly when some block of some function
  does not resolve among its siblings (`BoundModule.BindingSucceedsIff`). Where it does not throw, every written use is
  bound once and in order, and each is looked up in the block it stands in exactly when no block with uses in it repeats
  an earlier sibling's range (`ReferenceLog.ReferencesMade`); distinct ranges suffice for both
  (`ReferenceLog.DistinctRangesMake`). Sibling items of one source tree never have one extent
  (`SourceTree.ExtentsInOrder`); how extents become source ranges is not part of the model.
- The tries never test their root, so a group with an empty base would not be found
  (`ParameterizedPrefixTrie.EmptyBaseIsNeverFound`). Declared names are required to be nonempty, as identifiers are.
- A redeclaration at module scope keeps the first stored count, so collisions and their reports are stated over stored
  symbols (`LexicalBinding.CollisionReported`, `LexicalBinding.ReportedCollision`).

## Model

| member | source | states |
|---|---|---|
| MemberNames.FirstMemberTheorem | submod/binding/src/ptx_symbol_table.cpp:59-68 | Two nonempty groups share some spelling `base` + decimal(i) if and only if the first member of one is a member of the other: the arithmetic claim in the source's comment, for all bases and counts |
| MemberNames.OverlapIsSharedSpelling | submod/binding/src/ptx_symbol_table.cpp:48-69 | The overlap test decides true intersection of the two sets of spellings, in all four ordinary/group combinations and for empty groups |
| MemberNames.ContainsExact | submod/binding/src/ptx_symbol_table.cpp:42-46 | A name is accepted as a member exactly when it is one of the group's written-out spellings |
| MemberNames.ParseParameterizedIndexExact | submod/binding/src/ptx_symbol_table.cpp:22-40 | The index parse returns i exactly for `base` followed by the canonical decimal of i: no leading zeros, no overflow beyond 32 bits |
| MemberNames.LongerBaseFirstMember | submod/binding/src/ptx_symbol_table.cpp:59-68 | When the group with the longer base shares a spelling with the other, its first member already belongs to the other |
| NumericMemberTrie.NumericMemberIndex.IndexMemberNumber | submod/binding/src/ptx_symbol_table.cpp:92-109 | Inserting a member adds exactly that (member, symbol) entry to what the trie accounts for, creating the missing path of the 32 levels |
| NumericMemberTrie.NumericMemberIndex.EarliestMemberBelow | submod/binding/src/ptx_symbol_table.cpp:111-130 | After any insertions the result is the least symbol id among the inserted members strictly below the limit, absent exactly when there is none, for all 32-bit members and limits |
| NumericMemberTrie.NodeLowered | submod/binding/src/ptx_symbol_table.cpp:107-107 | Lowering one cached minimum on the inserted member's path keeps every other node's cached minimum right: the loop's step |
| NumericMemberTrie.ChildAdded | submod/binding/src/ptx_symbol_table.cpp:99-106 | Pushing a missing child where no entry lies keeps every cached minimum right |
| NumericMemberTrie.ChildAddedShaped | submod/binding/src/ptx_symbol_table.cpp:99-106 | Pushing a missing child keeps the trie a tree in which every node has its own label |
| ParameterizedPrefixTrie.ParameterizedPrefixIndex.IndexParameterizedBase | submod/binding/src/ptx_symbol_table.cpp:132-149 | Inserting a base maps it to the lower of the new and any stored symbol and changes no other base |
| ParameterizedPrefixTrie.ParameterizedPrefixIndex.ParameterizedContaining | submod/binding/src/ptx_symbol_table.cpp:151-174 | The search returns the lowest-id group that spells the name among all stored nonempty bases, not only those on one path |
| ParameterizedPrefixTrie.NoLongerBase | submod/binding/src/ptx_symbol_table.cpp:160-162 | Where no edge continues, no longer prefix of the spelling is a stored base, so stopping misses nothing |
| ParameterizedPrefixTrie.EmptyBaseIsNeverFound | submod/binding/src/ptx_symbol_table.cpp:157-164 | Whatever else is stored, a group with an empty base is never the search's answer, although it stands for "0" as soon as it has a member; so declared names are assumed nonempty |
| ScopeIndex.ScopeNameIndex.IndexMemberSpelling | submod/binding/src/ptx_symbol_table.cpp:176-190 | A spelling is filed, under every nonempty base of which it is a member, with that member number, and nowhere else; bases further than ten characters back cannot qualify |
| ScopeIndex.ScopeNameIndex.IndexSymbol | submod/binding/src/ptx_symbol_table.cpp:650-662 | The four indexes, updated together, go on describing exactly the scope's declarations plus the new one |
| ScopeIndex.ScopeNameIndex.ExactSymbol | submod/binding/src/ptx_symbol_table.cpp:610-621 | The lowest declaration of exactly this spelling and form, absent exactly when there is none |
| ScopeIndex.ScopeNameIndex.OverlappingSymbol | submod/binding/src/ptx_symbol_table.cpp:623-647 | When no exact match exists, the lowest-id declaration of the scope whose overlap test with the candidate succeeds, absent exactly when none does |
| ScopeIndex.ScopeNameIndex.LocalLookup | submod/binding/src/ptx_symbol_table.cpp:328-347 | One scope's answer is the ordinary declaration, else the lowest-id group that spells the name together with its member index; the one-group fast path agrees |
| ScopeIndex.OverlapsOfGroup | submod/binding/src/ptx_symbol_table.cpp:632-647 | A group candidate meets exactly the groups holding its first member and the filed members below its count |
| ScopeIndex.OverlapsOfOrdinary | submod/binding/src/ptx_symbol_table.cpp:628-631 | An ordinary candidate that is no exact match meets exactly the groups that spell it |
| LexicalBinding.FirstMatchIsEarliest | submod/binding/src/ptx_symbol_table.cpp:325-352 | The naive scan finds the matching symbol of lowest id and misses none: the reference that the indexes are compared with |
| LexicalBinding.AddSymbolKeeps | submod/binding/src/ptx_symbol_table.cpp:665-729 | Adding any declaration keeps the table well formed and its reports exact, and yields a symbol of that scope, name and form |
| LexicalBinding.OneOwnerPerSpelling | submod/binding/src/ptx_symbol_table.cpp:665-729 | Two stored lexical symbols of one scope that stand for a common spelling are the same, unless the later one is itself reported as overlapping |
| LexicalBinding.CollisionReported | submod/binding/src/ptx_symbol_table.cpp:690-705 | Of any two stored lexical symbols of one scope that share a spelling, the later is reported at its own range, beside the first one it collides with |
| LexicalBinding.ReportedCollision | submod/binding/src/ptx_symbol_table.cpp:690-705 | Every reported overlap names two stored symbols of one scope that do share a spelling, the earlier as the previous one |
| LexicalBinding.DisjointIffUnreported | submod/binding/src/ptx_symbol_table.cpp:665-729 | The stored symbols are pairwise disjoint in every scope if and only if no overlap is reported |
| LookupMeaning.LookupIsNearest | submod/binding/src/ptx_symbol_table.cpp:325-352 | A lookup has no answer if and only if no enclosing scope declares the name; otherwise it is the preferred declaration of the nearest scope that does, a plain one before groups and earlier before later, with the member that the name is |
| SymbolTables.SymbolTable.Lookup | submod/binding/src/ptx_symbol_table.cpp:325-352 | For every valid table, the indexed lookup through parent scopes equals the walk that scans each scope's symbols linearly, member index included |
| SymbolTables.SymbolTable.PushSymbol | submod/binding/src/ptx_symbol_table.cpp:650-729 | Storing a symbol indexes it unless it is metadata, and keeps every scope's indexes equal to that scope's declarations |
| SymbolTables.SymbolTable.PushScope | submod/binding/src/ptx_symbol_table.cpp:580-608 | A new scope gets empty indexes of its own and disturbs no other |
| SymbolTables.SymbolTable.BlockScopeAt | submod/binding/src/ptx_symbol_table.cpp:315-323 | The first stored block scope with this parent and range |
| SymbolTables.SymbolTable.HasPrior | submod/binding/src/ptx_symbol_table.cpp:380-397 | The three-valued answer computed from recorded orders |
| SymbolTables.SymbolTable.HasVariable | submod/binding/src/ptx_symbol_table.cpp:405-413 | Whether some recorded declarator of the symbol has exactly this range |
| SymbolTables.LocalIsLinear | submod/binding/src/ptx_symbol_table.cpp:325-352 | One scope's indexed answer, then the parent's, is the linear lookup |
| SourceOrder.EventsNumbered | submod/binding/src/ptx_symbol_table.cpp:439-449 | For any event list, exactly the ranges seen once are ordered, and their order is that of the events |
| SourceOrder.EventsNumberedInTurn | submod/binding/src/ptx_symbol_table.cpp:439-449 | An ordered range has the number that was next at its event, of which a range's first and second event use up one each |
| SourceOrder.PriorDeclarationMeaning | submod/binding/src/ptx_symbol_table.cpp:380-397 | True exactly when some declaration occurrence has one event, strictly before the use's one event; false exactly when all are known and none precedes; unknown otherwise |
| SymbolTableBuilders.SymbolTableBuilder.IndexRange | submod/binding/src/ptx_symbol_table.cpp:439-449 | Records one event's order, or withdraws it for good when its range repeats |
| SymbolTableBuilders.SymbolTableBuilder.IndexSourceOrder | submod/binding/src/ptx_symbol_table.cpp:549-561 | Numbers all events of the module in order, nested blocks included |
| SymbolTableBuilders.SymbolTableBuilder.IndexDeclarators | submod/binding/src/ptx_symbol_table.cpp:486-516 | Numbers each declared name and then what its initializer mentions |
| SymbolTableBuilders.SymbolTableBuilder.IndexExpression | submod/binding/src/ptx_symbol_table.cpp:451-483 | Numbers an expression's symbols in order, applied initializer operators included |
| SymbolTableBuilders.SymbolTableBuilder.IndexInitializer | submod/binding/src/ptx_symbol_table.cpp:495-513 | Numbers what an initializer mentions; a member given a bare name mentions nothing |
| SymbolTableBuilders.SymbolTableBuilder.IndexOperands | submod/binding/src/ptx_symbol_table.cpp:529-541 | Numbers call targets, call target sets and branch target sets, at their own ranges |
| SymbolTableBuilders.SymbolTableBuilder.IndexBodySourceOrder | submod/binding/src/ptx_symbol_table.cpp:518-547 | Numbers a body's declaration and use events in order, descending into blocks where they stand |
| SymbolTableBuilders.SymbolTableBuilder.RecordDeclarationOccurrence | submod/binding/src/ptx_symbol_table.cpp:563-578 | Appends one occurrence with the order of its range and the range of its declarator |
| SymbolTableBuilders.SymbolTableBuilder.OverlappingSymbol | submod/binding/src/ptx_symbol_table.cpp:623-647 | When no exact match exists, equals the first overlapping symbol of a linear scan, so that the re-check in the caller never fails |
| SymbolTableBuilders.SymbolTableBuilder.ExactSymbol | submod/binding/src/ptx_symbol_table.cpp:610-621 | Equals the first exact match of a linear scan |
| SymbolTableBuilders.SymbolTableBuilder.Add | submod/binding/src/ptx_symbol_table.cpp:665-729 | The indexed insertion refines the scan-based one: same id, same stored symbols and same duplicate reports |
| SymbolTableBuilders.SymbolTableBuilder.CountOf | submod/binding/src/ptx_symbol_table.cpp:791-809 | A written count is its 32-bit magnitude, or diagnosed and zero |
| SymbolTableBuilders.SymbolTableBuilder.CollectBodyItems | submod/binding/src/ptx_symbol_table.cpp:930-959 | Collects a body's declarations and blocks in order, each block in a new scope below its parent |
| SymbolTableBuilders.SymbolTableBuilder.CollectFunctionDeclaration | submod/binding/src/ptx_symbol_table.cpp:884-914 | Declares the function, opens this occurrence's scope, and collects its parameters and body |
| SymbolTableBuilders.SymbolTableBuilder.CollectVariableDeclaration | submod/binding/src/ptx_symbol_table.cpp:811-836 | Collects every declarator, with its count and occurrence, in order |
| SymbolTableBuilders.SymbolTableBuilder.CollectFunctionParameters | submod/binding/src/ptx_symbol_table.cpp:884-914 | Collects parameters of one kind into the function's scope |
| SymbolTableBuilders.SymbolTableBuilder.OpenFunction | submod/binding/src/ptx_symbol_table.cpp:884-903 | Declares the function and opens the scope of this occurrence of it |
| SymbolTableBuilders.SymbolTableBuilder.PushFunctionScope | submod/binding/src/ptx_symbol_table.cpp:580-595 | A definition's scope replaces a prototype's as the symbol's owned scope |
| SymbolTableBuilders.SymbolTableBuilder.PushBlockScope | submod/binding/src/ptx_symbol_table.cpp:597-608 | A new block scope below its parent |
| SymbolTableBuilders.SymbolTableBuilder.CollectDebugFile | submod/binding/src/ptx_symbol_table.cpp:838-868 | File metadata, or a diagnosed file id |
| SymbolTableBuilders.SymbolTableBuilder.CollectDebugStringLabels | submod/binding/src/ptx_symbol_table.cpp:870-882 | Label metadata of a debug string section |
| SymbolTableBuilders.SymbolTableBuilder.FindMetadataSymbol | submod/binding/src/ptx_symbol_table.cpp:731-740 | The first metadata symbol of this kind and name |
| SymbolTableBuilders.SymbolTableBuilder.CollectItems | submod/binding/src/ptx_symbol_table.cpp:1484-1498 | Collects all module items in order and remembers each function's scope |
| SymbolTableBuilders.SymbolTableBuilder.BindInstructionOperands | submod/binding/src/ptx_symbol_table.cpp:1173-1439 | Binds all operands in order; sinks are passed over as plain operands, in pairs and as plain vector elements, and nowhere else |
| SymbolTableBuilders.SymbolTableBuilder.BindVariableDeclaration | submod/binding/src/ptx_symbol_table.cpp:1159-1171 | References the symbols of dimensions and then of the initializer, declarator by declarator |
| SymbolTableBuilders.SymbolTableBuilder.BindExpression | submod/binding/src/ptx_symbol_table.cpp:1095-1135 | References an expression's symbols in order, leaving out an applied initializer operator |
| SymbolTableBuilders.SymbolTableBuilder.BindInitializer | submod/binding/src/ptx_symbol_table.cpp:1137-1157 | References what an initializer mentions, in order |
| SymbolTableBuilders.SymbolTableBuilder.BindArrayDimensions | submod/binding/src/ptx_symbol_table.cpp:1159-1168 | References the symbols of the sizes that are given |
| SymbolTableBuilders.SymbolTableBuilder.BindOperand | submod/binding/src/ptx_symbol_table.cpp:1173-1430 | The references of one operand, each in its role |
| SymbolTableBuilders.SymbolTableBuilder.BindVectorElements | submod/binding/src/ptx_symbol_table.cpp:1313-1329 | References vector elements, passing over sinks among the plain ones |
| SymbolTableBuilders.SymbolTableBuilder.ReferenceUnlessSink | submod/binding/src/ptx_symbol_table.cpp:1178-1190 | A sink in a position that may hold one makes no reference |
| SymbolTableBuilders.SymbolTableBuilder.BindFunctionReferences | submod/binding/src/ptx_symbol_table.cpp:1441-1456 | Binds parameters and then the body in the function's own scope |
| SymbolTableBuilders.SymbolTableBuilder.BindModuleDeclarations | submod/binding/src/ptx_symbol_table.cpp:1504-1509 | Binds module-level declarations in the module scope |
| SymbolTableBuilders.SymbolTableBuilder.BindAllFunctions | submod/binding/src/ptx_symbol_table.cpp:1510-1511 | Binds the functions in order, failing when one fails |
| SymbolTableBuilders.SymbolTableBuilder.AddMetadataSymbol | submod/binding/src/ptx_symbol_table.cpp:742-766 | Stores metadata in the module scope without indexing it |
| SymbolTableBuilders.SymbolTableBuilder.Reference | submod/binding/src/ptx_symbol_table.cpp:962-1002 | Classifies and records a reference as the linear lookup would |
| SymbolTableBuilders.SymbolTableBuilder.BindBodyItems | submod/binding/src/ptx_symbol_table.cpp:1458-1480 | Binds a body, failing exactly where a block has no scope |
| SymbolTableBuilders.SymbolTableBuilder.Build | submod/binding/src/ptx_symbol_table.cpp:1482-1513 | The whole imperative two-pass build refines the specification, whether it finishes or throws |
| CollectingPass.CollectModuleGrows | submod/binding/src/ptx_symbol_table.cpp:811-959 | For every module the collecting pass keeps the table sound; scopes and diagnostics only grow, and recorded orders never change |
| CollectingPass.CollectedSound | submod/binding/src/ptx_symbol_table.cpp:811-959 | The collected table is well formed, and disjoint if and only if no overlap was reported |
| CollectingPass.AddMetadataGrows | submod/binding/src/ptx_symbol_table.cpp:742-766 | Metadata takes a symbol id but leaves every scope's spellings alone |
| BlockScopes.CollectBodyMirrors | submod/binding/src/ptx_symbol_table.cpp:930-959 | Exactly the body's blocks are added as block scopes, numbered in source order below their parents |
| BlockScopes.CollectModuleMirrors | submod/binding/src/ptx_symbol_table.cpp:884-959 | After collecting a module every function's scope mirrors that function's body |
| BlockScopes.FirstScopeIsFirstItem | submod/binding/src/ptx_symbol_table.cpp:315-323 | The scope search finds the scope of the first sibling block with the range |
| BlockScopes.BindBodySucceedsIff | submod/binding/src/ptx_symbol_table.cpp:1458-1480 | Binding a body throws no missing-scope exception if and only if each of its blocks resolves among the blocks collected where it is searched |
| BlockScopes.PassesAgreeIff | submod/binding/src/ptx_symbol_table.cpp:1458-1480 | The scope search, followed from block to block as binding follows it, finds for every block the scope made for it if and only if sibling blocks have distinct ranges at every depth |
| BlockScopes.DistinctResolves | submod/binding/src/ptx_symbol_table.cpp:1458-1480 | Distinct sibling ranges rule the exception out |
| BoundModule.BindingSucceedsIff | submod/binding/src/ptx_symbol_table.cpp:1482-1513 | Binding a module succeeds if and only if every block of every one of its functions resolves among its siblings, which can be read off the module before the call |
| BoundModule.RepeatedRangeThrows | submod/binding/src/ptx_symbol_table.cpp:1470-1478 | Binding does throw: for a well-formed module of one function whose second block repeats the first one's range and has a block inside |
| BoundModule.DistinctRangesBind | submod/binding/src/ptx_symbol_table.cpp:1458-1513 | If sibling blocks have distinct ranges in every function, binding the module never throws |
| BoundModule.PassesAgreeEverywhereIff | submod/binding/src/ptx_symbol_table.cpp:1482-1513 | After collecting a module, the search finds every block of each function in its own scope exactly when that function's sibling ranges are distinct |
| BoundModule.BoundModuleIsSound | submod/binding/src/ptx_symbol_table.cpp:1482-1513 | Binding changes no declaration, parents keep smaller ids, every recorded reference is the linear lookup's and external exactly if its target is, and the finished table is disjoint if and only if no overlap is reported |
| MentionedNames.LeavesAreAll | submod/binding/src/ptx_symbol_table.cpp:1095-1135 | An expression's leaves in their roles are all its leaves, in order |
| MentionedNames.MentionsAreNames | submod/binding/src/ptx_symbol_table.cpp:1095-1135 | What an expression mentions is exactly the names among its leaves, in order; to be bound, without those where `generic` is applied |
| MentionedNames.InitializerMentionsAreNames | submod/binding/src/ptx_symbol_table.cpp:1137-1157 | The same for initializers, where an enumerant given to a member is no name |
| MentionedNames.NamesAreIdentifiers | submod/cst/src/ptx_cst_expressions.cpp:51-140 | In a canonical expression the leaves that are names are exactly its identifier tokens |
| MentionedNames.OperandFillsSlots | submod/binding/src/ptx_symbol_table.cpp:1173-1430 | Each operand form makes exactly the references of its written-out list of names and roles, less the sink where it may stand |
| ReferenceLog.BodyMakes | submod/binding/src/ptx_symbol_table.cpp:1458-1480 | Where it does not throw, binding a body makes one reference for each use written in it, in order, in the scope of the first like-ranged sibling of the block it stands in |
| ReferenceLog.FoundIsMadeIff | submod/binding/src/ptx_symbol_table.cpp:1458-1480 | Every use of a body is looked up in the very block it stands in if and only if no block with uses in it repeats an earlier sibling's range, at every depth |
| ReferenceLog.ReferencesMade | submod/binding/src/ptx_symbol_table.cpp:1482-1513 | Conservation: whatever the ranges, the references of a bound module are its written uses, each once and in order; and their scopes are those of the blocks they stand in if and only if no block with uses repeats an earlier sibling's range; just those that resolve to nothing are reported, in order |
| ReferenceLog.DistinctRangesMake | submod/binding/src/ptx_symbol_table.cpp:1458-1513 | With distinct sibling ranges binding succeeds and its references are exactly the written uses, each in the scope of its own block |
| SymbolLog.LexicalStored | submod/binding/src/ptx_symbol_table.cpp:665-729 | Adding a declaration keeps the table equal to the first declarations of each scope, name and form, in order, and the reports equal to the forbidden repetitions, in order |
| SymbolLog.MetadataStored | submod/binding/src/ptx_symbol_table.cpp:742-766 | The same for metadata, which is told apart by kind and name |
| SymbolLog.ModuleAccounted | submod/binding/src/ptx_symbol_table.cpp:1482-1513 | A bound module stores exactly one symbol for each name it declares, parameters, labels, prototypes and target sets included, in the order of their first declarations, and reports exactly the forbidden repetitions, in order |
| SymbolLog.CountIsWritten | submod/binding/src/ptx_symbol_table.cpp:791-809 | A declared count is stored as the number it spells, zero if that is not a positive 32-bit one, and diagnosed in just that case |
| SymbolLog.GroupMembers | submod/binding/src/ptx_symbol_table.cpp:791-836 | A group declared with a count spelled v stands for its base followed by a number exactly if that number is below v |
| InvalidNumbers.InvalidReported | submod/binding/src/ptx_symbol_table.cpp:791-868 | A bound module reports, in order, exactly the counts that spell no positive 32-bit number and the file ids that spell no 64-bit one |
| ScopeLog.ScopesAreWritten | submod/binding/src/ptx_symbol_table.cpp:580-608 | The scopes of a bound module are those of its text: functions below the module, owned by their symbols, and blocks below what they stand in; a symbol owns the scope of its last definition, or without one of its first prototype |
| SymbolLog.SymbolsAreDeclarations | submod/binding/src/ptx_symbol_table.cpp:811-959 | The table holds a symbol of a scope, name and form if and only if the module declares that name in that scope and form |
| SymbolLog.SymbolIsItsFirst | submod/binding/src/ptx_symbol_table.cpp:665-689 | Every stored symbol has the kind, range, linkage and spelled count of its first declaration, and is an array if any of its declarations is one |
| SymbolLog.RepetitionReportedIff | submod/binding/src/ptx_symbol_table.cpp:665-689 | A repetition is reported, beside the first declaration of its key, if and only if it may not repeat one: variables and functions of the module scope may |
| DeclarationLog.DeclarationsRecorded | submod/binding/src/ptx_symbol_table.cpp:811-959 | Conservation: the recorded occurrences are, with multiplicity, exactly the written variables, functions and branch target sets, each under the symbol of its own scope, name and form |
| DeclarationLog.OccurrencesAreDeclarations | submod/binding/src/ptx_symbol_table.cpp:563-578 | In a bound module a symbol's occurrences are all the written declarations of its scope, name and form and no others |
| DeclarationLog.PriorDeclarationInModule | submod/binding/src/ptx_symbol_table.cpp:380-397 | In a bound module the answer is yes exactly when such a declaration precedes the use in the module's events, and no exactly when every one is known not to |
| EventOrder.ModuleListed | submod/binding/src/ptx_symbol_table.cpp:486-561 | The numbered events of a module are exactly those of its tree, nested blocks included, each as often as it is written and in the order of their places |
| EventOrder.DeclarationsAreEvents | submod/binding/src/ptx_symbol_table.cpp:486-561 | The written variables, functions and branch target sets are among the events, in their order |
| EventOrder.OrderIsOfPlaces | submod/binding/src/ptx_symbol_table.cpp:439-449 | An event is ordered if and only if it stands at one place of the tree, and one precedes another if and only if its place comes first |
| EventOrder.PriorDeclarationInTree | submod/binding/src/ptx_symbol_table.cpp:380-397 | The answer about earlier declarations is yes if and only if a declaration of the symbol's scope, name and form stands before the use in the module's tree, and no if and only if each stands at one place that does not |
| DeclarationLog.VariableDeclarationInModule | submod/binding/src/ptx_symbol_table.cpp:405-413 | A range belongs to a symbol's variables exactly when the module writes a declarator of that range in its scope, name and form |
| BindingPass.BoundMentionsAreNumbered | submod/binding/src/ptx_symbol_table.cpp:451-483 | Every symbol that binding visits in an expression is also a numbered event; only initializer operators are numbered and not bound |
| IntegerMagnitude.ParseIntegerMagnitude | submod/base/include/ptx_integer.hpp:16-37 | Accepts exactly nonempty numerals of the selected radix with value below 2^64, and returns that value |
| IntegerSpellings.MagnitudeIsSpelled | submod/base/include/ptx_integer.hpp:16-37 | The decoder accepts exactly the spellings of 64-bit magnitudes and returns what they spell: decimal, octal by a leading zero, `0x`/`0X` and `0b`/`0B`, digits in either case, any leading zeros and an optional `u`/`U` |
| IntegerMagnitude.FromChars | submod/base/include/ptx_integer.hpp:31-35 | The digit scan takes the longest digit prefix and succeeds exactly when it is nonempty and its value fits |
| IntegerMagnitude.PrintParseRoundTrip | submod/base/include/ptx_integer.hpp:16-37 | Every magnitude, printed in decimal, octal, hexadecimal or binary, with or without a u suffix, decodes back to itself |
| Lexer.PtxLexer.Next | submod/lexer/src/ptx_lexer.cpp:49-65 | Returns the next non-trivia token with all trivia before it, and leaves the rest of the stream |
| Lexer.PtxLexer.Peek | submod/lexer/src/ptx_lexer.cpp:67-73 | Shows the next token and changes nothing about the tokens to come |
| Lexer.PtxLexer.Consume | submod/lexer/src/ptx_lexer.cpp:75-81 | Returns the next token; what follows is the stream without it, for ever |
| Lexer.LexingIsLossless | submod/lexer/src/ptx_lexer.cpp:49-65 | The tokens of raw pieces, with their trivia, spell out exactly the pieces' text |
| Lexer.PiecesKept | submod/lexer/src/ptx_lexer.cpp:49-66 | Token by token, trivia first, the raw pieces come back, each with its kind and text, followed by the end |
| Lexer.TriviaApart | submod/lexer/src/ptx_lexer.cpp:9-12 | White space and comments, and nothing else, are kept as trivia |
| Lexer.EndIsLast | submod/lexer/src/ptx_lexer.cpp:49-65 | The end token is the last token of the stream and the only one of its kind |
| Lexer.SourceText | submod/cst/src/ptx_cst_file.cpp:18-26 | Concatenates every token's trivia and text in order |
| Lexer.BufferText | submod/cst/src/ptx_cst_file.cpp:18-26 | A buffer that reached the end has the stream's text, however many empty end tokens follow |
| TokenBuffer.PtxCstParser.Peek | submod/cst/src/ptx_cst_parser_detail.hpp:204-215 | Yields the current id without moving, whatever lookahead happened before |
| TokenBuffer.PtxCstParser.PeekNext | submod/cst/src/ptx_cst_parser_detail.hpp:218-225 | Yields the id after the current one without moving |
| TokenBuffer.PtxCstParser.Consume | submod/cst/src/ptx_cst_parser_detail.hpp:228-232 | Ids are consumed as 0, 1, 2, ... under every interleaving of lookahead: exactly one step each |
| TokenBuffer.PtxCstParser.Take | submod/cst/src/ptx_cst_parser_detail.hpp:240-247 | Consumes the requested kind or leaves the current token and names the kind |
| TokenBuffer.PtxCstParser.Buffers | submod/cst/src/ptx_cst_parser_detail.hpp:235-237 | Every buffered id holds the stream's token of that id |
| Tokens.ConstantBinaryPrecedence | submod/cst/src/ptx_cst_parser_detail.hpp:164-197 | Exactly the eighteen binary operators have a precedence, from one to ten, and every other kind minus one; which operator has which is settled by the layers |
| ConstantParser.ParseConstantExpression | submod/cst/src/ptx_cst_expressions.cpp:190-276 | The precedence-climbing loops compute the parse function and consume exactly its tokens |
| ConstantParser.ParseConditional | submod/cst/src/ptx_cst_expressions.cpp:233-273 | A conditional follows only at the lowest level, right-nested |
| ConstantParser.ParseConstantUnary | submod/cst/src/ptx_cst_expressions.cpp:161-186 | Prefix operators charge one level each |
| ConstantParser.ParseConstantPrimary | submod/cst/src/ptx_cst_expressions.cpp:53-157 | Leaves, parentheses and casts, with calls only after the first two |
| ConstantParser.ParseParenthesized | submod/cst/src/ptx_cst_expressions.cpp:73-154 | A left parenthesis begins a cast or an inner expression at one level less |
| ConstantParser.ParseConstantCast | submod/cst/src/ptx_cst_expressions.cpp:75-98 | A cast takes a unary operand |
| ConstantParser.ParseCalls | submod/cst/src/ptx_cst_expressions.cpp:123-156 | Each application is one level above callee and argument |
| ConstantInversion.ExpressionComplete | submod/cst/src/ptx_cst_expressions.cpp:53-276 | Every precedence-canonical tree within the budget, followed by a token that cannot extend it, parses back to itself |
| ConstantInversion.ExpressionSound | submod/cst/src/ptx_cst_expressions.cpp:53-276 | Whatever parses is the numbering of a precedence-canonical tree standing there, within the budget, followed by a stopping token |
| ConstantTheorems.ParsedIsCanonical | submod/cst/src/ptx_cst_expressions.cpp:53-276 | Parser output is canonical, its leaves in tree order are exactly the consumed ids, and the recorded height is the true height |
| ConstantTheorems.ParsesExactlyWhen | submod/cst/src/ptx_cst_expressions.cpp:53-276 | Tokens written from a tree parse to that tree if and only if it is canonical, ended by a stopping token, and no higher than the budget |
| ConstantTheorems.PrintParseRoundTrip | submod/cst/src/ptx_cst_expressions.cpp:53-276 | Flattening a canonical tree between any prefix and any non-extending rest and parsing there gives the tree back |
| DepthBudgets.TighterExpression | submod/cst/src/ptx_cst_expressions.cpp:51-276 | A smaller budget changes nothing about any parse, successful or not, except that it may become a depth refusal |
| DepthBudgets.TighterInitializer | submod/cst/src/ptx_cst_expressions.cpp:280-344 | The same for initializers |
| ConstantTheorems.BudgetExact | submod/cst/src/ptx_cst_expressions.cpp:189-276 | With budget b the result is the unbudgeted one if that tree has height at most b, and if it is higher a depth refusal |
| ConstantTheorems.TrailingCheckUnreachable | submod/cst/src/ptx_cst_expressions.cpp:213-218 | The height check after an operand was parsed never fires |
| ConstantTheorems.EndsInSource | submod/cst/src/ptx_cst_expressions.cpp:53-276 | An expression never reaches past the end token |
| ConstantLayers.ExpressionIsLayer | submod/cst/src/ptx_cst_parser_detail.hpp:136-197 | The trees of the grammar by precedences are, at every level, those of a second grammar written as ten left-recursive layers that list their own operators, and its operands their own literals, signs and cast types |
| ConstantLayers.LayerParsesExactlyWhen | submod/cst/src/ptx_cst_expressions.cpp:51-276 | Tokens written from a tree parse to that tree, at any level, if and only if it belongs to the layer, no token that applies, joins or questions it follows, and it is low enough: so a product binds tighter than a sum, and equal operators group to the left |
| ConstantLayers.ParsedIsInLayer | submod/cst/src/ptx_cst_expressions.cpp:51-276 | Whatever parses is a tree of its layer that stands there |
| ConstantRefusals.RefusedExpression | submod/cst/src/ptx_cst_expressions.cpp:51-276 | A refused expression is refused before a token that begins no operand, before one that is not the parenthesis or colon due, or just after one that the budget does not allow; nowhere else |
| ConstantRefusals.RefusedInitializer | submod/cst/src/ptx_cst_expressions.cpp:280-344 | The same for initializers, whose lists may also be unclosed or too deep for their elements |
| InitializerParser.ParseInitializerTree | submod/cst/src/ptx_cst_expressions.cpp:280-344 | The initializer parser computes the parse function and consumes exactly its tokens |
| InitializerParser.ParseNamed | submod/cst/src/ptx_cst_expressions.cpp:289-302 | A member name, an equals sign and a value one level below |
| InitializerParser.Step | submod/cst/src/ptx_cst_expressions.cpp:315-329 | One element and its comma move from the rest of a list to what has been parsed |
| InitializerParser.ParseList | submod/cst/src/ptx_cst_expressions.cpp:315-334 | The loop over elements and commas, with its two exits, reads exactly one list |
| InitializerParser.ParseNumericOperand | submod/cst/src/ptx_cst_expressions.cpp:11-43 | A literal or signed literal becomes an immediate and nothing else does; the leaves are the expression's, and the first register in it is refused |
| InitializerInversion.ParsedInitializerIsCanonical | submod/cst/src/ptx_cst_expressions.cpp:280-344 | A parsed initializer is grammatical, covers exactly the consumed ids and has the recorded height |
| InitializerInversion.InitializerParsesExactlyWhen | submod/cst/src/ptx_cst_expressions.cpp:280-344 | Written initializers parse to themselves if and only if grammatical, not followed by what would extend them (a lone name by an equals sign), and low enough |
| InitializerInversion.InitializerBudgetExact | submod/cst/src/ptx_cst_expressions.cpp:280-344 | The budget admits the unbudgeted initializer if it is low enough, and refuses it for its depth if it is higher |
| InitializerInversion.ScalarIsNotMember | submod/cst/src/ptx_cst_expressions.cpp:287-302 | Two-token lookahead for `name =` never takes a longer scalar for a member |
| InitializerLayers.InitializerLayerParsesExactlyWhen | submod/cst/src/ptx_cst_expressions.cpp:280-344 | Tokens written from an initializer parse to it if and only if it is one over the layers, nothing that continues it follows, and it is low enough |
| InitializerLayers.OperandIsLayer | submod/cst/src/ptx_cst_constant_operand.cpp:8-20 | A numeric operand is any expression, or in a narrow position one of the multiplicative layer, and at most 128 levels high |
| InitializerLayers.OperandKinds | submod/cst/src/ptx_cst_constant_operand.cpp:22-43 | Registers are identifiers that begin with a percent sign; immediates are literals, or literals behind a plus or minus |
| SectionGrammar.FindCloseExact | submod/cst/src/ptx_cst_directives.cpp:563-588 | A right brace is found if and only if it is the matching one with no end or module start in the way |
| SectionGrammar.ClosedOnce | submod/cst/src/ptx_cst_directives.cpp:563-588 | A payload has one matching brace or one place where it is missing, never both |
| SectionGrammar.PayloadIsBalanced | submod/cst/src/ptx_cst_directives.cpp:563-588 | No prefix of the payload closes more than it opens, and the whole is balanced |
| SectionGrammar.EntryIsWritten | submod/cst/src/ptx_cst_directives.cpp:619-691 | Each field of a read entry stands where its production puts it, symbolic values only with the two wide widths, and the entry takes everything that could continue it |
| SectionGrammar.PayloadIsTiled | submod/cst/src/ptx_cst_directives.cpp:619-691 | Without a payload error, entries and stray semicolons tile the payload in order; an error lies inside it |
| SectionGrammar.EntryIsRead | submod/cst/src/ptx_cst_directives.cpp:619-691 | An entry written at its span is read there as itself |
| SectionGrammar.PayloadReadsExactlyWhen | submod/cst/src/ptx_cst_directives.cpp:619-691 | A payload reads as given entries without an error if and only if it is written as them in order with stray semicolons between |
| SectionGrammar.EntryRefusedAt | submod/cst/src/ptx_cst_directives.cpp:596-688 | A refused entry is refused at its first token, a name that no narrow width takes, or the place where an integer is missing |
| SectionGrammar.PayloadRefusedAt | submod/cst/src/ptx_cst_directives.cpp:596-688 | A payload error lies in the first entry that is refused, right after entries and semicolons that cover everything before it |
| SectionParser.ParsedSectionIsFaithful | submod/cst/src/ptx_cst_directives.cpp:551-704 | A parsed section takes the true matching brace, keeps exactly the balanced run, and without a payload error its entries tile it |
| SectionParser.SectionParsesExactlyWhen | submod/cst/src/ptx_cst_directives.cpp:551-704 | A section parses with a given right brace if and only if its header does and that brace matches |
| SectionParser.CollectPayload | submod/cst/src/ptx_cst_directives.cpp:563-588 | The brace-counting loop finds that brace and keeps every token before it |
| SectionParser.ReadInteger | submod/cst/src/ptx_cst_directives.cpp:602-618 | An optional sign and an integer literal from the payload |
| SectionParser.ReadValue | submod/cst/src/ptx_cst_directives.cpp:643-685 | Symbol, difference, addend or comma-separated integers, as the payload function reads them |
| SectionParser.ReadIntegers | submod/cst/src/ptx_cst_directives.cpp:668-685 | The comma loop reads the same integers, or the same first error |
| SectionParser.ReadEntry | submod/cst/src/ptx_cst_directives.cpp:619-691 | One label definition or data directive |
| SectionParser.ReadData | submod/cst/src/ptx_cst_directives.cpp:633-690 | A width, its value and an optional semicolon, covered by the entry's span |
| SectionParser.ReadEntries | submod/cst/src/ptx_cst_directives.cpp:619-691 | The cursor loop reads the same entries and the same first error |
| SectionParser.ParseSectionDirective | submod/cst/src/ptx_cst_directives.cpp:551-704 | The imperative section parser computes the section function and consumes exactly its tokens |
| Recovering.RecoverItem | submod/cst/src/ptx_cst_recovery.cpp:10-116 | Recovery over the token buffer computes the recovery function, nodes, last token, stop and position |
| Recovering.ConsumeOffending | submod/cst/src/ptx_cst_recovery.cpp:95-115 | Consumes the offending token and skips on, with the nodes, stop and position of the recovery function |
| RecoveryBoundaries.RecoveryStopsExactly | submod/cst/src/ptx_cst_recovery.cpp:10-116 | With the kinds written out: recovery consumes nothing exactly at the end, before a token it must not consume, or before the next item's start where a semicolon was due; else it takes the offending token and goes on to the first semicolon, which it takes, or to the first `}`, `@@DWARF`, function, linkage, module directive or section start (for a legacy record also `{`), or between module items to any module start, and says which it was |
| RecoveryBoundaries.RecoveryNodesExactly | submod/cst/src/ptx_cst_recovery.cpp:20-116 | The nodes recovery leaves are determined by where it stopped |
| RecoveryBoundaries.SemicolonBeforeBrace | submod/cst/src/ptx_cst_recovery.cpp:82-88 | A body whose last item lacks only its semicolon gets one inserted semicolon and closes at its own brace |
| Recovering.RecoveryTiles | submod/cst/src/ptx_cst_recovery.cpp:10-116 | Recovered spans tile exactly the tokens from the item's first to the new current token; a missing semicolon is inserted once exactly when it is expected and nothing is consumed |
| Recovering.RecoveryMarks | submod/cst/src/ptx_cst_recovery.cpp:19-70 | Only the offending token is an error span, runs before and after it are skipped spans, zero-width marks stand at the current token |
| Recovering.RecoveryStopsBeforeAnchors | submod/cst/src/ptx_cst_recovery.cpp:45-116 | From its current token on recovery consumes no anchor and no end, at most one semicolon and that last; the stop names what it stopped at |
| Recovering.SkipStops | submod/cst/src/ptx_cst_recovery.cpp:101-115 | Skipping passes no anchor and ends at the first semicolon, anchor or end |
| Recovering.Skip | submod/cst/src/ptx_cst_recovery.cpp:103-110 | The skipping loop, as that function |
| Drivers.SectionRefusal | submod/cst/src/ptx_cst_directives.cpp:551-588 | A refused section is never refused with a payload error |
| DriverTheorems.BodyIsCovered | submod/cst/src/ptx_cst_recovery.cpp:119-159 | On every token stream body items tile exactly the tokens after the opener up to the closer or the missing-brace anchor; the right brace is missing if and only if the last item, and no other, marks it; nested bodies likewise |
| DriverTheorems.MissingBraceReported | submod/cst/src/ptx_cst_recovery.cpp:121-138 | A body without its brace reports that last, at the anchor |
| DriverTheorems.BodyRecoveryAdvances | submod/cst/src/ptx_cst_recovery.cpp:139-157 | Each turn of the body loop consumes a token even when its item was refused without consuming any |
| DriverTheorems.BodyRecoveryStops | submod/cst/src/ptx_cst_recovery.cpp:149-156 | Recovery that ends a body stopped at the end or at a function or module boundary |
| DriverTheorems.SimpleItemIsCovered | submod/cst/src/ptx_cst_directives.cpp:345-430 | Each body item comes from the production its first tokens introduce and covers exactly what was consumed |
| DriverTheorems.FunctionIsCovered | submod/cst/src/ptx_cst_directives.cpp:707-895 | A function covers its qualifiers, directive, header and body; only a `.func` may end in a prototype's semicolon |
| DriverTheorems.ModuleItemIsCovered | submod/cst/src/ptx_cst_directives.cpp:915-1061 | Every accepted module item covers exactly what was consumed |
| DriverTheorems.ModuleIsCovered | submod/cst/src/ptx_cst_directives.cpp:898-1070 | Module items and recovery spans tile everything before the final end, blocks nest at most 256 deep, and there are no items exactly for an empty source |
| DriverTheorems.RecoveryIsReported | submod/cst/src/ptx_cst_directives.cpp:898-1070 | The tree has no recovery node anywhere if and only if all diagnostics are section-payload ones |
| DriverInversion.SimpleItemIff | submod/cst/src/ptx_cst_directives.cpp:345-430 | A body item that is not a block is read, as that item and with that end, exactly where its first tokens stand and its production accepts just that run |
| DriverInversion.BodyReadsExactlyWhen | submod/cst/src/ptx_cst_recovery.cpp:119-159 | A body reads as these items, closes at this brace and reports nothing if and only if the items are laid out one after the other up to that brace, nested blocks likewise and at most to the depth limit |
| DriverInversion.ModuleReadsExactlyWhen | submod/cst/src/ptx_cst_directives.cpp:898-1070 | A module reads as these items with no report but of section payloads if and only if the items are laid out one after the other up to the end of the stream; and then the payload errors of its sections are reported, in order |
| DriverTheorems.ModuleRecoveryAdvances | submod/cst/src/ptx_cst_directives.cpp:904-913 | Each turn of the module loop consumes a token |
| SourceKinds.BeginsIntroduces | submod/cst/src/ptx_cst_directives.cpp:333-430 | For each production the kinds, written out, that an item of it begins with |
| SourceKinds.SectionEndKinds | submod/cst/src/ptx_cst_parser_detail.hpp:112-132 | An unclosed section ends before exactly these kinds: every module start but an alias |
| DriverRefusals.BodyItemRefusedIff | submod/cst/src/ptx_cst_directives.cpp:333-430 | A body item is refused, with this diagnostic after these tokens, if and only if it is a block below 256 others, a header or labelled directive out of place, or the one production that its first tokens select refuses it so |
| DriverRefusals.ModuleItemRefusedIff | submod/cst/src/ptx_cst_directives.cpp:915-1061 | A module item is refused so if and only if its function, section or selected production is, or nothing can begin there; behind a lone label the refusal lies after the colon |
| DriverRefusals.SectionRefusedIff | submod/cst/src/ptx_cst_directives.cpp:551-588 | A section is refused for its name, its opening brace, or a payload found unclosed, each at its token |
| DriverRefusals.AfterRefusedBodyItem | submod/cst/src/ptx_cst_recovery.cpp:139-157 | A refused body item is reported with its own diagnostic, recovery's nodes take its place, and the body goes on where recovery stopped |
| DriverRefusals.AfterRefusedModuleItem | submod/cst/src/ptx_cst_directives.cpp:904-913 | The same for module items |
| SourceTree.EachTokenOnce | submod/cst/src/ptx_cst_directives.cpp:898-1070 | Tiling means that every token of the range belongs to exactly one item and no other token to any |
| SourceTree.ExtentsInOrder | submod/cst/src/ptx_cst_directives.cpp:898-1070 | Of two items of one tiling the earlier ends before the later begins, so no two items have one extent |
| SourceTree.SoundNesting | submod/cst/src/ptx_cst_parser_detail.hpp:9-9 | In every tree the drivers accept, blocks nest at most to the limit counted from the function body |
| ModuleParser.ParseBodyItems | submod/cst/src/ptx_cst_recovery.cpp:119-159 | The body loop computes the body function and consumes exactly its tokens |
| ModuleParser.ParseBodyItemTree | submod/cst/src/ptx_cst_directives.cpp:332-430 | Item selection over the buffer, refusing a block nested beyond the limit without consuming it |
| ModuleParser.ParseBlock | submod/cst/src/ptx_cst_directives.cpp:433-448 | A block from its opener through its body's outcome |
| ModuleParser.ParseSimpleItemTree | submod/cst/src/ptx_cst_directives.cpp:345-430 | The production choice for items other than blocks |
| ModuleParser.ParseLabelledTree | submod/cst/src/ptx_cst_directives.cpp:380-408 | Labels, labelled call metadata and instructions, told apart by two tokens of lookahead |
| ModuleParser.ParseFunctionTree | submod/cst/src/ptx_cst_directives.cpp:846-894 | A header is completed by a prototype's semicolon or a body, or refused |
| ModuleParser.ParseQualifiers | submod/cst/src/ptx_cst_directives.cpp:917-919 | Collects the qualifier run |
| ModuleParser.ParseModuleItemTree | submod/cst/src/ptx_cst_directives.cpp:916-1060 | One module item, with its qualifiers, as the module function |
| ModuleParser.ParseSimpleModuleItemTree | submod/cst/src/ptx_cst_directives.cpp:922-1060 | The module items without inner items; anything else is refused where the source refuses it |
| ModuleParser.RunProduction | submod/cst/src/ptx_cst_directives.cpp:332-430 | An abstract production consumes exactly the run it decides on |
| ModuleParser.ParseModule | submod/cst/src/ptx_cst_directives.cpp:898-1070 | Returns a value exactly for a nonempty source; then the items tile the module range, which ends before the final end token, everything nests within the limit, recovery is reported if and only if present, and the token buffer spells out the whole source |
| ModuleParser.ReachedEnd | submod/cst/src/ptx_cst_file.cpp:18-26 | A buffer that has reached the end spells out the raw source |

## Left out

- ModuleParser.ParseFunctionTree: what stands between the directive and the opening brace or semicolon is one abstract production, because it only consumes a run and pushes it to the header.
- ModuleParser.ParseSimpleItemTree: each item's inside is abstract; which production is chosen, what it covers and what follows a refusal are not.
- ModuleParser.RunProduction: which run a production takes is arbitrary, because the declaration, operand and small directive grammars are not modelled.
- SymbolTableBuilders.SymbolTableBuilder.CollectVariableDeclaration: linkage arrives resolved, and type, state space, alignment and vector width are not stored, because binding carries them along unread.
- SymbolTableBuilders.SymbolTableBuilder.CollectDebugFile: the file payload beside the symbol (file name, timestamp, size) is not stored, because nothing reads it here.
- SymbolTableBuilders.SymbolTableBuilder.Reference: the two maps from ranges to references are not kept, nor the diagnostics for targets that a position does not allow.
- SymbolTableBuilders.SymbolTableBuilder.BindOperand: addresses, brackets, members, call parameters and branch labels arrive as the list of names they mention, in the order they are visited.
- SymbolTableBuilders.SymbolTableBuilder.Build: the alias pass between collecting and binding, and references to debug locations, are not made.
- Scanning characters into raw pieces (the generated scanner): the model starts from raw pieces, none of which is the end of input.
- Coordinates and message texts: a diagnostic carries the id of its token and the kind it expected, a recovery mark the id of the token it stands before; of a duplicate's two messages only which one it is.
- The header grammar, declarations, operands, instructions and the small directives: abstract productions that look at the stream from a position and accept or refuse a contiguous run (`Drivers.Productions`). They consume something when they accept; a legacy record always consumes its marker, and a refusal for a missing semicolon comes after something was consumed.
- Token ranges of inner expression nodes: leaves carry their ids, so inner ranges follow; only the top one is kept.
- The wrap-around of 32-bit token, symbol and scope ids beyond 2^32 entries.
- Conflict checks on linkage qualifiers: declarations arrive with their linkage resolved.
- Secondary queries of the table that only read back stored fields (`exactDeclaration`, `functionScope`, `initializerReference`, `branchTargetSetReference`).
- The table of special registers: a parameter of the build.
- `CstFile::sourceRange`, `CstFile::token` and the instruction-fragment entry point.
- Hash functions, ownership and allocation failure.
