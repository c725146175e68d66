# Tool-call parsing: a verified model

The repository turns the text a language model writes into tool calls, one piece at a time, and hashes
and describes what it caches. This project models its algorithms in Dafny and proves what they are for:

- **Exclusion grammar** (`Strings`, `ExclusionAutomaton`, `TrieShape`, `FailureLinks`, `GlmTrie`,
  `ExclusionGrammar`, `ExclusionTheorem`, `GlmExclusion`). Node objects are built into a trie, linked
  breadth first, and written out as a right-linear grammar. The grammar derives exactly the words in
  which no forbidden string occurs.
- **Argument types** (`JsonValues`, `JsonPointers`, `ArgumentTypes`, `ArgumentTypesSound`,
  `ArgumentTypesExact`). The type inference over cyclic JSON Schema documents terminates, never excludes
  the type of a value that satisfies the schema, and excludes exactly what some keyword on the way excludes
  (sections 6.1.1 to 6.1.3 of JSON Schema Validation 2020-12, sections 8.2.3.1 and 10.2.1 of JSON Schema
  Core 2020-12, sections 3 to 6 of RFC 6901). A schema is a finite JSON document whose references are
  places in it; validity is any predicate on places and values that keeps the keywords.
- **Streaming** (`Events`, `Streaming`, `HoldBack`, `Cursors`). A streaming parser is a machine that
  waits or steps at the front of its buffer. A machine whose steps are stable under more text cannot tell
  how its text was cut; `HoldBack` says when the shared hold-back loop is exact. Instances, each with an
  object whose methods are proved to follow the machine: IQuest (`IQuestSpec`, `IQuestDetector`),
  Poolside (`PoolsideSpec`, `PoolsideDetector`, `PoolsideSafety`), Gemma 4 (`GemmaStream`) and
  Qwen3-Coder (`QwenStream`).
- **Agreement of streaming and one-shot parsing**: IQuest on every text; on printed replies Poolside
  (`ArgTags`, `Dictionaries`, `PoolsideWire`, `PoolsideOneShot`), Gemma 4 (`GemmaWire`, `GemmaOneShot`) and
  Qwen3-Coder (`QwenWire`, `QwenOneShot`); Hunyuan argument deltas (`JsonStrings`, `HunyuanArgs`,
  `HunyuanDeltas`, `HunyuanDetector`, `HunyuanExact`); the GLM character transducer (`GlmTransducer`). What the
  last two emit is JSON that reads back as what was written (`GlmJson`, `JsonObjects`, sections 3 to 7 of
  RFC 8259).
- **Structured parsers**: the MiniMax M3 stack machine against recursion over elements, with an exact
  description of what it accepts and of the schema each part is read under (`MiniMaxM3`, `MiniMaxTrees`,
  `MiniMaxPrinter`, `MiniMaxTyped`, `MiniMaxSchemas`); the
  Gemma 4 value parser, with exact conditions for what it reads back and for when it ends (`GemmaParser`,
  `GemmaPrinter`, `GemmaRoundTrip`, `GemmaLayout`, `GemmaCuts`, `GemmaExact`, `GemmaEnds`); the Mistral scanners against
  the grammar of RFC 8259, sections 4, 5 and 7, and the compact calls found with them (`MistralScanner`,
  `MistralCompact`, `JsonGrammar`); the LFM2 rewriting and splitting (`Lfm2Escape`, `Lfm2Split`, `Lfm2Blocks`,
  `Lfm2Keywords`).
- **Hashing** (`KvHash`, `KvTree`, `KvSplit`, `KvSeed`). Chained page hashes with memos on tree nodes agree
  with the flat hash of the token prefix and survive page-aligned splits of nodes; the bytes behind a
  namespace seed read back as what they were made from. SHA-256 is any function.

Loops, dictionaries and objects that the program updates are methods and classes here, each proved
against a function; the lemmas are about those functions.

Where the code does less than its comments say, the exact condition is a lemma:

- A GLM string value that ends in the beginning of its own closing tag is never closed
  (`CloseIsSeenIffNoResidue`), because a mismatch drops the match in progress whole.
- The hold-back loop returns the shortest partial token, which is too little on some buffer for every
  token with a bordered prefix (`ShortestIsLongest`).
- Hunyuan deltas go wrong for some cutting of the text as soon as a string holds a control character that
  the streaming code leaves raw (`AddsUpIffNoRaw`).
- An array directly inside an array is scanned by Gemma 4 without regard to strings. Printed arguments are
  read back exactly when all such arrays are cut out right all the same (`RoundTripIff`, `CutIffRight`), and
  the parser runs for ever exactly where an item would start with a closing bracket (`NeverEndsIffStuck`):
  if none of them is closed early, exactly when one is not cut out right (`PrintedNeverEndsIff`).
- A Gemma 4 object without its closing brace loses its last character (`BraceMissing`, `DigitLost`).
- The one-shot parsers of Poolside, Gemma 4 and Qwen3-Coder end a call at the first end tag, in a value too;
  streaming does not (`ParsersAgree` of each, with the exact condition).
- The one-shot Qwen3-Coder parser drops a newline from a last value without its own end that ends in two
  of them, and the streaming parser keeps it (`SeenAsWritten`, `NewlineLost`).
- LFM2's escaping, which is said to give back the exact original value, changes what a literal with a raw
  prefix denotes as soon as it holds a control character (`EscapePreservesMeaning`, `RawLiteralIsChanged`).
- LFM2 leaves a control character behind a backslash as it is (`EscapedIsClean`). Its restoring of argument
  names, called the exact inverse of their renaming, also renames an argument whose name ends in the suffix
  by itself (`ReservedNamesComeBack`).
- Splitting a node's hashes off a page boundary gives wrong halves (`SplitIsRightIffAligned`).
- An empty list at the root of MiniMax M3 parameters comes back as an empty object (`RoundTrip`), and an
  element that is never closed is dropped without an error (`AcceptedMayBeOpen`).

`dafny verify dfyconfig.toml` checks the whole project.

## Model

| member | source | states |
|---|---|---|
| `GlmExclusion.StringExclude` | src/llm_router_utils/sglang/srt/function_call/glm4_moe_detector.py:775-838 | the grammar that is returned derives a word exactly when no non-empty forbidden string occurs in it, for every list of forbidden strings, the empty list and empty strings included |
| `GlmExclusion.ExcludePatterns` | src/llm_router_utils/sglang/srt/function_call/glm4_moe_detector.py:785-838 | for non-empty patterns: derivable is the same as free of every pattern |
| `GlmExclusion.BuildRules` | src/llm_router_utils/sglang/srt/function_call/glm4_moe_detector.py:795-838 | one rule for each live state, and each rule faithful to the automaton: it steps on every character to exactly the live target of that character |
| `GlmExclusion.TransitionState` | src/llm_router_utils/sglang/srt/function_call/glm4_moe_detector.py:721-731 | the transition loop ends, and at the target state of the automaton, with its end mark |
| `GlmExclusion.FileCharacters` | src/llm_router_utils/sglang/srt/function_call/glm4_moe_detector.py:802-812 | every pattern character is filed once: as excluded when its target is dead, under its live target otherwise |
| `GlmExclusion.EmitAlternatives` | src/llm_router_utils/sglang/srt/function_call/glm4_moe_detector.py:814-836 | the alternatives made from that filing, with the one for all other characters, step exactly as the automaton does |
| `GlmExclusion.OutsideGoesToRoot` | src/llm_router_utils/sglang/srt/function_call/glm4_moe_detector.py:721-731 | a character of no pattern leads to the root from every state, which justifies the one negated character class |
| `GlmExclusion.BuildTrieWithFailureLinks` | src/llm_router_utils/sglang/srt/function_call/glm4_moe_detector.py:679-718 | trie, links and marks built together represent the finished automaton of the patterns |
| `GlmTrie.BuildTrie` | src/llm_router_utils/sglang/srt/function_call/glm4_moe_detector.py:683-696 | the node objects represent the trie of the patterns, no link being set yet |
| `GlmTrie.InsertPattern` | src/llm_router_utils/sglang/srt/function_call/glm4_moe_detector.py:688-696 | one pattern walked and marked turns the objects of a trie into those of the trie with that pattern in it |
| `GlmTrie.LinkFailures` | src/llm_router_utils/sglang/srt/function_call/glm4_moe_detector.py:698-718 | the breadth-first loop ends with every node in the state the invariant describes, the queue empty and no child left |
| `GlmTrie.LinkOne` | src/llm_router_utils/sglang/srt/function_call/glm4_moe_detector.py:705-716 | one child gets the link and the end mark of the abstract step, whatever objects are shared |
| `GlmTrie.FailTarget` | src/llm_router_utils/sglang/srt/function_call/glm4_moe_detector.py:708-714 | the inner loop finds the node that chasing links finds, and never the child itself |
| `GlmTrie.GetTransition` | src/llm_router_utils/sglang/srt/function_call/glm4_moe_detector.py:721-731 | the loop terminates and returns the node that chasing links finds |
| `TrieShape.InsertKeeps` | src/llm_router_utils/sglang/srt/function_call/glm4_moe_detector.py:688-696 | inserting a word keeps the trie well formed and marks exactly one more word |
| `TrieShape.BuildMarksPatterns` | src/llm_router_utils/sglang/srt/function_call/glm4_moe_detector.py:688-696 | the marked words are the patterns, no more and no fewer |
| `TrieShape.WordsPrefixClosed` | src/llm_router_utils/sglang/srt/function_call/glm4_moe_detector.py:688-696 | every prefix of a node word is a node word |
| `FailureLinks.LinkChildInv` | src/llm_router_utils/sglang/srt/function_call/glm4_moe_detector.py:705-717 | linking one child keeps the breadth-first invariant: links right, queue in order of depth, marks final for finished nodes |
| `FailureLinks.PopInv` | src/llm_router_utils/sglang/srt/function_call/glm4_moe_detector.py:703-705 | taking the front of the queue keeps the invariant |
| `FailureLinks.LinkTarget` | src/llm_router_utils/sglang/srt/function_call/glm4_moe_detector.py:708-714 | when a child is linked, all links the chase needs are there, shrink, and lead to the child's longest proper suffix |
| `FailureLinks.AllNodesLinked` | src/llm_router_utils/sglang/srt/function_call/glm4_moe_detector.py:698-718 | with the queue empty every node has its link: the longest proper suffix of its word in the trie |
| `FailureLinks.ChaseIsFollow` | src/llm_router_utils/sglang/srt/function_call/glm4_moe_detector.py:708-713 | chasing links over node numbers is following longest suffixes over words |
| `ExclusionAutomaton.FollowIsBack` | src/llm_router_utils/sglang/srt/function_call/glm4_moe_detector.py:721-731 | the transition on a character is the longest suffix of word and character that is a node word |
| `ExclusionAutomaton.FailOfChild` | src/llm_router_utils/sglang/srt/function_call/glm4_moe_detector.py:708-714 | the link of a child is found by following the links of its parent |
| `ExclusionAutomaton.EndsForbiddenAlongFail` | src/llm_router_utils/sglang/srt/function_call/glm4_moe_detector.py:714-717 | a pattern ends at a word exactly when the word is a pattern or one ends at its failure target, so one look along the link is enough |
| `ExclusionAutomaton.SafeMeansNoneOccurs` | src/llm_router_utils/sglang/srt/function_call/glm4_moe_detector.py:721-731 | a run of the automaton avoids dead states exactly when no pattern occurs in the word |
| `ExclusionGrammar.DerivesIsLives` | src/llm_router_utils/sglang/srt/function_call/glm4_moe_detector.py:798-838 | derivation in a right-linear grammar of faithful rules is a run through live states |
| `ExclusionTheorem.LivesIsSafe` | src/llm_router_utils/sglang/srt/function_call/glm4_moe_detector.py:798-838 | a run over node numbers is live exactly when the run over words is safe |
| `ExclusionTheorem.RootDerivesPatternFree` | src/llm_router_utils/sglang/srt/function_call/glm4_moe_detector.py:787-838 | the root derives a word exactly when no marked word occurs in it |
| `ExclusionTheorem.SearchFinishes` | src/llm_router_utils/sglang/srt/function_call/glm4_moe_detector.py:698-718 | the end of the breadth-first search is a finished automaton |
| `GlmTransducer.Transducer.ProcessXmlToJsonStreaming` | src/llm_router_utils/sglang/srt/function_call/glm4_moe_detector.py:322-440 | a piece of text moves the object and emits JSON exactly as its characters do one by one |
| `GlmTransducer.PutAllConcat` | src/llm_router_utils/sglang/srt/function_call/glm4_moe_detector.py:341-440 | a text cut in two emits and ends as the whole text does |
| `GlmTransducer.PiecesDoNotMatter` | src/llm_router_utils/sglang/srt/function_call/glm4_moe_detector.py:341-440 | however a text is cut into pieces, the JSON and the state at the end are the same |
| `GlmTransducer.TagStaysRight` | src/llm_router_utils/sglang/srt/function_call/glm4_moe_detector.py:341-440 | on every input the tag buffer inside a value stays a proper prefix of the closing tag |
| `GlmTransducer.InValuePassesThrough` | src/llm_router_utils/sglang/srt/function_call/glm4_moe_detector.py:404-438 | inside a value all text but the match in progress has been sent, escaped |
| `GlmTransducer.CloseIsSeenIffNoResidue` | src/llm_router_utils/sglang/srt/function_call/glm4_moe_detector.py:370-412 | the closing tag of a value is recognised, and the value comes out right, exactly when the text leaves no match of the tag in progress; otherwise the value never ends |
| `GlmTransducer.ArgumentsBecomeObject` | src/llm_router_utils/sglang/srt/function_call/glm4_moe_detector.py:322-440 | arguments without such values come out as the text of one object with the arguments as written, the brace at the end coming from the finalizer |
| `GlmTransducer.ArgumentsBecomeDictionary` | src/llm_router_utils/sglang/srt/function_call/glm4_moe_detector.py:322-440 | cut in any way, they come out as the text of their entries, which is that of the dictionary they make exactly when no key is repeated |
| `GlmTransducer.ValueNeverCloses` | src/llm_router_utils/sglang/srt/function_call/glm4_moe_detector.py:385-430 | a value that ends in the beginning of its closing tag, and does not end |
| `GlmTransducer.ReadArgument` | src/llm_router_utils/sglang/srt/function_call/glm4_moe_detector.py:341-440 | one readable argument adds its separator and its pair and leaves the machine ready |
| `GlmJson.OutputIsJson` | src/llm_router_utils/sglang/srt/function_call/glm4_moe_detector.py:322-440 | with the escaping of json.dumps, readable arguments cut in any way come out as the text of one JSON object: its names and strings read back as the keys and texts on the wire, in order, and a value that is copied is its own text |
| `GlmJson.OneArgumentRead` | src/llm_router_utils/sglang/srt/function_call/glm4_moe_detector.py:322-440 | one argument, its tags spelled out and cut in any way: a string is dumped, another value is copied |
| `JsonObjects.QuotedReads` | src/llm_router_utils/sglang/srt/function_call/glm4_moe_detector.py:352-412 | a dumped string is a JSON string, and reads back as the string, control characters and quotes included |
| `JsonObjects.ObjectIsJson` | src/llm_router_utils/sglang/srt/function_call/hunyuan_detector.py:533-535 | the text of a dictionary is that of a JSON object with its entries as members, in order |
| `ArgumentTypesSound.ArgumentTypeSound` | src/llm_router_utils/sglang/srt/function_call/glm47_moe_detector.py:88-149 | if an object satisfies the schema and the known arguments are among its members, the type set found for a member is absent or holds the type of its value, references however cyclic |
| `ArgumentTypesSound.SatisfiedMatches` | src/llm_router_utils/sglang/srt/function_call/glm47_moe_detector.py:80-85 | a branch that the object satisfies is never filtered out by the known arguments |
| `ArgumentTypesSound.TypesAllow` | src/llm_router_utils/sglang/srt/function_call/glm47_moe_detector.py:88-149 | the same for any place of the schema, any set of places already visited, and a value asked about itself |
| `ArgumentTypesSound.UnionAllows` | src/llm_router_utils/sglang/srt/function_call/glm47_moe_detector.py:135-143 | the union over the branches that are kept allows the value if one branch is satisfied |
| `ArgumentTypesSound.ConstraintsAllow` | src/llm_router_utils/sglang/srt/function_call/glm47_moe_detector.py:100-149 | every constraint that is collected allows the value |
| `ArgumentTypes.EachBranchAt` | src/llm_router_utils/sglang/srt/function_call/glm47_moe_detector.py:135-143 | every branch of a conjunction is asked, in order, under the same known arguments and visited places |
| `JsonValues.JsonEqualIsSameNormal` | src/llm_router_utils/sglang/srt/function_call/glm47_moe_detector.py:66-77 | the recursive comparison is equality of the JSON data model: numbers by value, never across types |
| `JsonValues.PlacesAreFinite` | src/llm_router_utils/sglang/srt/function_call/glm47_moe_detector.py:97-112 | every place a reference can reach is one of finitely many, which is why the walk ends |
| `ArgumentTypesExact.ExcludedIff` | src/llm_router_utils/sglang/srt/function_call/glm47_moe_detector.py:88-149 | a type is excluded exactly when the schema object, met for the first time, has a keyword that excludes it: a type no value of that kind satisfies, a list without one, a reference, a property, a branch of allOf, or all the branches of a union that the known arguments leave, of which there is one |
| `ArgumentTypesExact.OwnTypesExact` | src/llm_router_utils/sglang/srt/function_call/glm47_moe_detector.py:117-134 | a schema with none of these but types and listed values: the types are unknown if it has neither, and are else exactly those of the values that satisfy it, equal to the known value if there is one |
| `ArgumentTypesExact.TagKeeps` | src/llm_router_utils/sglang/srt/function_call/glm47_moe_detector.py:80-85 | of branches with a constant under one property, a known argument there keeps exactly those whose constant it equals |
| `ArgumentTypesExact.TaggedUnion` | src/llm_router_utils/sglang/srt/function_call/glm47_moe_detector.py:135-143 | in a union told apart by such constants, the types for any key are those of the one branch the known argument belongs to |
| `ArgumentTypesExact.DeclaredType` | src/llm_router_utils/sglang/srt/function_call/glm47_moe_detector.py:88-171 | a property declared with a type has that type, a number being one type |
| `JsonPointers.PlaceFound` | src/llm_router_utils/sglang/srt/function_call/glm47_moe_detector.py:101-108 | a pointer, its names escaped as RFC 6901 has it, resolves to a place exactly when the names lead there: members by name, elements by index, counted from the end where it is negative |
| `JsonPointers.FoundIsPlace` | src/llm_router_utils/sglang/srt/function_call/glm47_moe_detector.py:101-108 | only a local reference resolves at all, and to nothing else than a place of the document |
| `PoolsideSpec.PoolsideChunkInvariance` | src/llm_router_utils/sglang/srt/function_call/poolside_v1_detector.py:260-443 | any two ways of cutting a text, well-formed or not, give the same events, final state and text held back |
| `PoolsideSpec.AdvanceStable` | src/llm_router_utils/sglang/srt/function_call/poolside_v1_detector.py:275-434 | a step that is taken is taken whatever text follows |
| `PoolsideSpec.NameBoundaryExtends` | src/llm_router_utils/sglang/srt/function_call/poolside_v1_detector.py:198-206 | once found, the end of a name is not moved by more text |
| `PoolsideSpec.NameBoundaryExact` | src/llm_router_utils/sglang/srt/function_call/poolside_v1_detector.py:198-206 | the end of a name is the first place where a newline, a key or the end of the call stands, and there is none exactly when none of them occurs |
| `PoolsideDetector.Detector.ParseStreamingIncrement` | src/llm_router_utils/sglang/srt/function_call/poolside_v1_detector.py:260-443 | a piece of text takes the object, cursor and buffer to where the machine runs to, and emits its events |
| `PoolsideDetector.Detector.CloseCurrentCall` | src/llm_router_utils/sglang/srt/function_call/poolside_v1_detector.py:120-138 | the record, the event and the reset of a closed call are those of the machine step |
| `PoolsideDetector.Detector.ConsumeArgKey` | src/llm_router_utils/sglang/srt/function_call/poolside_v1_detector.py:107-118 | a key is taken exactly when its end tag is there, with the cursor behind it |
| `PoolsideSafety.ReachableIsSafe` | src/llm_router_utils/sglang/srt/function_call/poolside_v1_detector.py:260-443 | on any text in any pieces: the record of streamed arguments is what was emitted per index, indices come as 0, 1, 2 with a name first, and each record is empty, an open object or one closed object |
| `PoolsideSafety.StepKeeps` | src/llm_router_utils/sglang/srt/function_call/poolside_v1_detector.py:275-434 | every step keeps that invariant |
| `PoolsideSafety.ClosedStaysClosed` | src/llm_router_utils/sglang/srt/function_call/poolside_v1_detector.py:120-138 | a closed object is never extended again |
| `PoolsideWire.RunReply` | src/llm_router_utils/sglang/srt/function_call/poolside_v1_detector.py:260-443 | on a printed reply, the end of a call allowed inside the values of a known tool, the machine emits all the text outside calls but what it holds back, and per known call one name and the fragments of its arguments |
| `PoolsideWire.RunArgs` | src/llm_router_utils/sglang/srt/function_call/poolside_v1_detector.py:337-412 | the arguments of a call are emitted one fragment each, and its end closes the object |
| `PoolsideOneShot.ParsersAgree` | src/llm_router_utils/sglang/srt/function_call/poolside_v1_detector.py:218-443 | on a printed reply, cut in any way, streaming and one-shot parsing find the same calls; streaming spells all arguments as written, one-shot parsing the dictionary of those in front of the first end of a call, which are all of them exactly when no value holds one, and the same dictionary exactly when no key is repeated besides; the normal text differs where text follows a call |
| `PoolsideOneShot.SameExactly` | src/llm_router_utils/sglang/srt/function_call/poolside_v1_detector.py:227-256 | the dictionary of the one-shot parser is the streamed entries, in order, exactly when no key is repeated and no value holds the end of a call |
| `PoolsideOneShot.CallsOfReply` | src/llm_router_utils/sglang/srt/function_call/poolside_v1_detector.py:227-256 | one-shot parsing finds each known call with its name and the dictionary of the arguments it sees |
| `PoolsideOneShot.BodiesOfReply` | src/llm_router_utils/sglang/srt/function_call/poolside_v1_detector.py:227 | the search for call blocks finds each printed body up to the first end of a call in it |
| `PoolsideOneShot.PairsOfBody` | src/llm_router_utils/sglang/srt/function_call/poolside_v1_detector.py:233-246 | the search for argument pairs in such a body finds the arguments that stand whole in it, and its name |
| `PoolsideOneShot.EndIsAmong` | src/llm_router_utils/sglang/srt/function_call/poolside_v1_detector.py:227 | the first end of a call in a body is the first one in a value: none of the other tags makes one |
| `PoolsideOneShot.SeenAll` | src/llm_router_utils/sglang/srt/function_call/poolside_v1_detector.py:227-246 | all arguments are seen exactly when no value holds the end of a call |
| `PoolsideOneShot.FragmentsAddUp` | src/llm_router_utils/sglang/srt/function_call/poolside_v1_detector.py:384-408 | the streamed fragments of a call add up to the text of one object |
| `PoolsideOneShot.DetectAndParse` | src/llm_router_utils/sglang/srt/function_call/poolside_v1_detector.py:218-256 | normal text before the first call, and the calls of all blocks in order |
| `PoolsideOneShot.OneCallRead` | src/llm_router_utils/sglang/srt/function_call/poolside_v1_detector.py:218-443 | one call with one argument, its tags spelled out: what streaming emits, however it is cut, and what one-shot parsing finds |
| `PoolsideOneShot.BareCallRead` | src/llm_router_utils/sglang/srt/function_call/poolside_v1_detector.py:198-206 | a call whose end stands right behind its name: both parsers find it, with an empty object |
| `Dictionaries.DictIsAsWritten` | src/llm_router_utils/sglang/srt/function_call/poolside_v1_detector.py:239-246 | a dictionary filled entry by entry is the entries as written exactly when no key is repeated |
| `Dictionaries.DictIsLast` | src/llm_router_utils/sglang/srt/function_call/poolside_v1_detector.py:239-246 | a dictionary filled entry by entry holds the last value of every key, and its keys stand in the order in which they were put first |
| `HoldBack.EndsWithPartialToken` | src/llm_router_utils/sglang/srt/function_call/base_format_detector.py:112-123 | the loop returns the shortest suffix of the buffer that may grow into the token, or 0 |
| `HoldBack.ShortestIsLongest` | src/llm_router_utils/sglang/srt/function_call/base_format_detector.py:112-123 | the shortest suffix is the longest one on every buffer exactly for the tokens whose proper prefixes are border-free |
| `HoldBack.SkipIsHoldBack` | src/llm_router_utils/sglang/srt/function_call/base_format_detector.py:112-123 | for a token that opens once, cutting the buffer there is what a scan character by character does |
| `Streaming.RunOfConcat` | src/llm_router_utils/sglang/srt/function_call/base_format_detector.py:125-128 | running a machine with stable steps over a text is running over a part, then over what is left of it and the rest |
| `Streaming.ChunkInvariance` | src/llm_router_utils/sglang/srt/function_call/base_format_detector.py:125-128 | a machine with stable steps cannot tell how its text was cut |
| `IQuestSpec.FeedIsOneShot` | src/llm_router_utils/sglang/srt/function_call/iquest_q1_detector.py:38-100 | streaming in any pieces and then finishing gives the normal text and the calls of the one-shot parse, for every text |
| `IQuestSpec.RunIsOneShot` | src/llm_router_utils/sglang/srt/function_call/iquest_q1_detector.py:62-100 | the same for the text in one piece, event by event |
| `IQuestSpec.IQuestStable` | src/llm_router_utils/sglang/srt/function_call/iquest_q1_detector.py:62-94 | no step depends on text that is still to come |
| `IQuestSpec.BlocksParsed` | src/llm_router_utils/sglang/srt/function_call/iquest_q1_detector.py:38-60 | of a text with blocks in it, the last perhaps open, the calls are those of the accepted blocks in order; all else is text, a rejected block and an open one with their tags |
| `IQuestSpec.OneBlockRead` | src/llm_router_utils/sglang/srt/function_call/iquest_q1_detector.py:38-100 | one block, its tags spelled out, streamed in any pieces and finished: its calls and the text around it, or the whole text where it is rejected |
| `IQuestDetector.Detector.DetectAndParse` | src/llm_router_utils/sglang/srt/function_call/iquest_q1_detector.py:38-60 | the cursor loop computes the one-shot events: rejected blocks stay text, accepted ones become numbered calls |
| `IQuestDetector.Detector.ParseStreamingIncrement` | src/llm_router_utils/sglang/srt/function_call/iquest_q1_detector.py:62-94 | a piece of text takes the object to where the machine runs to; calls are numbered on |
| `IQuestDetector.Detector.AppendCalls` | src/llm_router_utils/sglang/srt/function_call/iquest_q1_detector.py:86-93 | the calls of a block join the records with consecutive indices |
| `IQuestDetector.Detector.Finish` | src/llm_router_utils/sglang/srt/function_call/iquest_q1_detector.py:96-100 | all that is held back becomes text, with the opening token if it was used up; buffer and state are cleared, and the call records stay |
| `KvHash.PathIsFlat` | src/llm_router_utils/sglang/srt/mem_cache/utils.py:66-115 | with whole pages in every node but the last, the hashes along a path are the flat hashes of the whole prefix, wherever the path is cut |
| `KvHash.PagesOfConcat` | src/llm_router_utils/sglang/srt/mem_cache/utils.py:108-115 | hashing two parts in a chain is hashing the whole when the first is whole pages |
| `KvHash.PageCount` | src/llm_router_utils/sglang/srt/mem_cache/utils.py:108-115 | as many hashes as pages, the last one possibly short |
| `KvHash.PageByPage` | src/llm_router_utils/sglang/srt/mem_cache/utils.py:108-115 | each hash is that of its own page, chained on the hash before it, and the first one on what was given |
| `KvHash.SplitIsRightIffAligned` | src/llm_router_utils/sglang/srt/mem_cache/utils.py:236-254 | splitting a node's hashes gives both halves their own exactly when the split is on a page boundary |
| `KvHash.SplitInsidePage` | src/llm_router_utils/sglang/srt/mem_cache/utils.py:236-254 | a split inside a page, and the halves that come out wrong |
| `KvHash.SplitNodeKeepsPath` | src/llm_router_utils/sglang/srt/mem_cache/utils.py:236-254 | an aligned split changes no hash below the node |
| `KvHash.GetHashStr` | src/llm_router_utils/sglang/srt/mem_cache/utils.py:66-115 | one digest, one digest per page in a chain, or an error for a page size that is not positive |
| `KvTree.ComputeNodeHashValues` | src/llm_router_utils/sglang/srt/mem_cache/utils.py:173-185 | the pages of the node's own key chained on the parent's last digest, if it has one |
| `KvTree.ComputeNodeEventHashValues` | src/llm_router_utils/sglang/srt/mem_cache/utils.py:188-233 | from any state with right memos: the specified value, or an error exactly when salts differ; exactly the nodes without a memo up the path are filled in, none on an error, and all memos stay right |
| `KvTree.CollectMissing` | src/llm_router_utils/sglang/srt/mem_cache/utils.py:197-223 | the walk up stops at the nearest memo and answers whether all salts agree |
| `KvTree.FillIn` | src/llm_router_utils/sglang/srt/mem_cache/utils.py:225-230 | each missing node gets its specified value, top down |
| `KvTree.EventHashesArePathHashes` | src/llm_router_utils/sglang/srt/mem_cache/utils.py:188-233 | the values along the path to a node are those of its keys in a chain on the seed of the salt, and with whole pages above it the flat hash of the whole prefix |
| `KvSplit.EventBlocksAreFlat` | src/llm_router_utils/sglang/srt/mem_cache/utils.py:188-233 | in a tree with right memos, what the nodes of a filled path store, in a row, is the flat hash of the tokens from the top, on the seed of the salt |
| `KvSplit.PlainBlocksAreFlat` | src/llm_router_utils/sglang/srt/mem_cache/utils.py:173-185 | the same for hashes without a namespace, each node chained on its parent |
| `KvSplit.NodeKeeps` | src/llm_router_utils/sglang/srt/mem_cache/utils.py:188-254 | an aligned split of a node leaves the path, salt check and namespaced hashes of every other node as they were, and gives the child's to the two halves in a row |
| `KvSplit.SplitKeepsCoherent` | src/llm_router_utils/sglang/srt/mem_cache/utils.py:236-254 | an aligned split keeps every memo right: of both halves, of all nodes below, and of all others |
| `KvSplit.SplitKeepsPlain` | src/llm_router_utils/sglang/srt/mem_cache/utils.py:236-254 | the same for hashes without a namespace |
| `KvSplit.BlocksStay` | src/llm_router_utils/sglang/srt/mem_cache/utils.py:236-254 | an aligned split leaves what every path stores, in a row, as it was |
| `KvSplit.PrefixStays` | src/llm_router_utils/sglang/srt/mem_cache/utils.py:236-254 | and the tokens from the top down to every node |
| `KvSplit.PrefixIsFlat` | src/llm_router_utils/sglang/srt/mem_cache/utils.py:188-233 | the tokens from the top down to a node are those of the keys along its path |
| `KvSplit.SplitNode` | src/llm_router_utils/sglang/srt/mem_cache/utils.py:236-254 | a node is divided so, and what was right stays right |
| `KvSeed.SeedInjective` | src/llm_router_utils/sglang/srt/disaggregation/kv_events.py:116-130 | the bytes that are hashed tell every two pairs apart, absent values included |
| `KvSeed.EncodePrefixFree` | src/llm_router_utils/sglang/srt/disaggregation/kv_events.py:124-129 | no encoded part is the beginning of another, whatever follows |
| `KvSeed.NamespaceSeed` | src/llm_router_utils/sglang/srt/disaggregation/kv_events.py:116-130 | the loop over the parts builds those bytes, and gives no seed exactly when both parts are absent |
| `KvSeed.SeedReads` | src/llm_router_utils/sglang/srt/disaggregation/kv_events.py:116-130 | the bytes read back as the two parts, the extra key first: a byte that says whether a part is there, its length in eight bytes, the lowest first, and its bytes; there are none exactly when both parts are absent |
| `MiniMaxM3.ParseParameter` | src/llm_router_utils/sglang/srt/function_call/minimax_m3.py:491-536 | the loop over pieces computes the run of the stack machine, its four errors included |
| `MiniMaxM3.BodyStartsWithItem` | src/llm_router_utils/sglang/srt/function_call/minimax_m3.py:538-543 | whether the first piece that is not blank opens an item |
| `MiniMaxTrees.ForestRuns` | src/llm_router_utils/sglang/srt/function_call/minimax_m3.py:491-536 | pushing and popping frames does to the top of the stack what recursion over the elements does to a value, for all elements, repeated tags and mixed content included |
| `MiniMaxTrees.AcceptedAreForests` | src/llm_router_utils/sglang/srt/function_call/minimax_m3.py:502-536 | the machine reads to the end with nothing open exactly when the tags nest properly and every element with children is a container |
| `MiniMaxTrees.AcceptedMayBeOpen` | src/llm_router_utils/sglang/srt/function_call/minimax_m3.py:436-536 | there is no error exactly when the events are elements, the last of them perhaps open, whose parts all have values; elements still open at the end are dropped |
| `MiniMaxPrinter.PrintedIsDenoted` | src/llm_router_utils/sglang/srt/function_call/minimax_m3.py:491-536 | parsing the text of elements gives the value of the recursion, trailing blanks of a text and anything after an end tag dropped |
| `MiniMaxPrinter.MismatchIsRejected` | src/llm_router_utils/sglang/srt/function_call/minimax_m3.py:507-519 | at any depth, an end tag of another element than the innermost open one, or one where none is open, fails the parse, whatever comes after |
| `MiniMaxPrinter.SplitJoined` | src/llm_router_utils/sglang/srt/function_call/minimax_m3.py:502 | splitting at the namespace token undoes joining with it |
| `MiniMaxTyped.RoundTrip` | src/llm_router_utils/sglang/srt/function_call/minimax_m3.py:491-536 | a value that fits its schema comes back from its text, each item under the schema of its position, exactly when it is not an empty list at the root, which comes back as an empty object |
| `MiniMaxTyped.FieldsAreMembers` | src/llm_router_utils/sglang/srt/function_call/minimax_m3.py:474-489 | each member is found under its own name, converted under its own schema, and there are no others |
| `MiniMaxSchemas.FirstWins` | src/llm_router_utils/sglang/srt/function_call/utils.py:307-323 | the schema of a name is the first one declared for it: in the properties, or without any in the branches of anyOf, oneOf and allOf, in this order and at any depth |
| `MiniMaxSchemas.FieldSchemaIs` | src/llm_router_utils/sglang/srt/function_call/minimax_m3.py:369-387 | a member is read under the first schema declared for its name, or else that for additional properties |
| `MiniMaxSchemas.ItemSchemaIs` | src/llm_router_utils/sglang/srt/function_call/minimax_m3.py:389-411 | an item is read under the schema at its position, or else the one for additional items, for all items, or of the last position |
| `MiniMaxSchemas.KindsAre` | src/llm_router_utils/sglang/srt/function_call/minimax_m3.py:413-429 | which schemas name an array, and which a scalar and no container, capital letters or not |
| `MiniMaxSchemas.MembersGather` | src/llm_router_utils/sglang/srt/function_call/minimax_m3.py:474-536 | under each tag of the object that elements are parsed to stands what its elements add up to, each read under the schema of its name: one by itself, more as a list, going on with the list that the first one is; and there are no other names |
| `MiniMaxSchemas.MemberParsed` | src/llm_router_utils/sglang/srt/function_call/minimax_m3.py:436-536 | one element with a text is stored as that text converted under the schema of its name, or as an empty container where there is no text and no scalar is expected |
| `MiniMaxSchemas.ItemsParsed` | src/llm_router_utils/sglang/srt/function_call/minimax_m3.py:389-536 | items with texts are stored in order, each converted under the schema of its position |
| `MiniMaxSchemas.OtherPieces` | src/llm_router_utils/sglang/srt/function_call/minimax_m3.py:502-527 | an end tag may lack its bracket, an opening tag may not, and a piece that opens no tag is passed over |
| `GemmaParser.ParseArgs` | src/llm_router_utils/sglang/srt/function_call/gemma4_detector.py:108-208 | the loop over entries computes the recursive specification, or reports the input on which the program never ends |
| `GemmaParser.ParseArray` | src/llm_router_utils/sglang/srt/function_call/gemma4_detector.py:45-105 | the same for the loop over items |
| `GemmaParser.ScanNested` | src/llm_router_utils/sglang/srt/function_call/gemma4_detector.py:67-96 | the bracket scan goes as far as the specification says, strings skipped where the program skips them |
| `GemmaRoundTrip.RoundTrip` | src/llm_router_utils/sglang/srt/function_call/gemma4_detector.py:108-208 | printed arguments whose arrays in arrays are cut out right parse to themselves, and the parser ends on them |
| `GemmaRoundTrip.ValueBack` | src/llm_router_utils/sglang/srt/function_call/gemma4_detector.py:45-208 | any printed value is read back with the text behind it left over |
| `GemmaRoundTrip.CutIffRight` | src/llm_router_utils/sglang/srt/function_call/gemma4_detector.py:85-96 | an array directly inside an array, where strings are not skipped, is cut out at its end exactly when its brackets balance, or none closes it early and it stands last |
| `GemmaRoundTrip.BracketFreeIsCutRight` | src/llm_router_utils/sglang/srt/function_call/gemma4_detector.py:85-96 | arrays without brackets in their strings are cut out right wherever they stand |
| `GemmaRoundTrip.QuietIsCut` | src/llm_router_utils/sglang/srt/function_call/gemma4_detector.py:45-208 | so are all arrays of a value in which no string beneath an array directly inside an array holds a bracket |
| `GemmaExact.RoundTripIff` | src/llm_router_utils/sglang/srt/function_call/gemma4_detector.py:45-208 | printed arguments are read back exactly when all their arrays directly inside arrays are cut out right |
| `GemmaExact.EntriesCutOff` | src/llm_router_utils/sglang/srt/function_call/gemma4_detector.py:108-208 | of printed entries cut off anywhere: what was read stays, and they are read as printed only if no more than the end of a string and closing brackets is missing |
| `GemmaExact.CutPrefix` | src/llm_router_utils/sglang/srt/function_call/gemma4_detector.py:45-105 | items cut off in front of a bracket that closes too early are not read as printed, unless only closing brackets stand behind the cut |
| `GemmaExact.ItemsSpoiled` | src/llm_router_utils/sglang/srt/function_call/gemma4_detector.py:45-105 | items with a closing bracket behind them are never read to the end as printed |
| `GemmaExact.ReadIsCutRight` | src/llm_router_utils/sglang/srt/function_call/gemma4_detector.py:45-208 | a value that is read as printed, and to its end, has been cut out right all through |
| `GemmaEnds.NeverEndsIffStuck` | src/llm_router_utils/sglang/srt/function_call/gemma4_detector.py:45-208 | on any text, the parser runs for ever exactly when it comes to stand, in an array, in front of a closing bracket |
| `GemmaEnds.PrintedNeverEndsIff` | src/llm_router_utils/sglang/srt/function_call/gemma4_detector.py:45-208 | the same on printed arguments; and where no array in an array is closed early by its strings, exactly when one of them is not cut out right, so that either what was printed comes back or nothing does |
| `GemmaEnds.EntriesNeverEnd` | src/llm_router_utils/sglang/srt/function_call/gemma4_detector.py:45-208 | printed entries with an array in an array that is closed too late, at any depth, and none closed early, make the parser run for ever |
| `GemmaEnds.EntriesCutOffEnd` | src/llm_router_utils/sglang/srt/function_call/gemma4_detector.py:108-208 | wherever printed arguments are cut off, if all their arrays in arrays are cut out right, the parser comes to an end on what is there |
| `GemmaEnds.StuckBehind` | src/llm_router_utils/sglang/srt/function_call/gemma4_detector.py:45-105 | behind such items, with no array in an array closed early, a closing bracket is where the parser gets stuck |
| `GemmaEnds.LateCutNeverEnds` | src/llm_router_utils/sglang/srt/function_call/gemma4_detector.py:85-96 | with an array in an array whose strings open more brackets than they close, none inside it closed early, and anything behind it, the parser never ends |
| `GemmaEnds.EarlyCutNeverEndsIff` | src/llm_router_utils/sglang/srt/function_call/gemma4_detector.py:85-96 | with one whose strings close it early, the parser ends exactly when it ends on the text in front of the bracket that closes it and on the text behind |
| `GemmaRoundTrip.UnbalancedNeverEnds` | src/llm_router_utils/sglang/srt/function_call/gemma4_detector.py:45-105 | on an array in an array with a string that begins with a closing bracket and goes on, the program does not terminate |
| `GemmaRoundTrip.BracketAlone` | src/llm_router_utils/sglang/srt/function_call/gemma4_detector.py:45-105 | where the bracket is all of the string, another value comes back |
| `GemmaLayout.LaidArgs` | src/llm_router_utils/sglang/srt/function_call/gemma4_detector.py:108-208 | arguments with any blanks, line breaks and superfluous commas between their parts, at any depth, are read as the dictionary of their entries, the last value of a repeated key counting |
| `GemmaLayout.LaidBack` | src/llm_router_utils/sglang/srt/function_call/gemma4_detector.py:45-208 | and so is any value written in that way, with the text behind it left over |
| `GemmaLayout.WordStops` | src/llm_router_utils/sglang/srt/function_call/gemma4_detector.py:98-206 | a word ends at a comma or a closing bracket, as an item not at a closing brace |
| `GemmaLayout.TextUnended` | src/llm_router_utils/sglang/srt/function_call/gemma4_detector.py:145-155 | a text whose end is missing is all that is left |
| `GemmaLayout.ValueMissing` | src/llm_router_utils/sglang/srt/function_call/gemma4_detector.py:133-143 | a key without a value has an empty text |
| `GemmaLayout.ColonMissing` | src/llm_router_utils/sglang/srt/function_call/gemma4_detector.py:119-129 | text without a colon adds no entry |
| `GemmaLayout.BraceMissing` | src/llm_router_utils/sglang/srt/function_call/gemma4_detector.py:157-177 | an object whose closing brace is missing is read without its last character, whatever that is |
| `GemmaLayout.DigitLost` | src/llm_router_utils/sglang/srt/function_call/gemma4_detector.py:157-177 | so that a number loses its last digit |
| `GemmaStream.GemmaChunkInvariance` | src/llm_router_utils/sglang/srt/function_call/gemma4_detector.py:309-439 | any two ways of cutting a text give the same events, final state and text held back |
| `GemmaStream.BraceExtends` | src/llm_router_utils/sglang/srt/function_call/gemma4_detector.py:211-234 | a matching brace once found is found in every extension of the text |
| `GemmaStream.FindMatchingBrace` | src/llm_router_utils/sglang/srt/function_call/gemma4_detector.py:211-234 | the scan returns the brace that closes the text outside strings, or -1 |
| `GemmaStream.Detector.ParseStreamingIncrement` | src/llm_router_utils/sglang/srt/function_call/gemma4_detector.py:309-439 | a piece of text takes the object to where the machine runs to, and emits its events |
| `GemmaWire.RunReply` | src/llm_router_utils/sglang/srt/function_call/gemma4_detector.py:309-439 | on a printed reply, streaming emits all text outside calls but for what it holds back at the end, and for each call its name and then the JSON text of the very arguments it was printed from |
| `GemmaWire.ArgsEnd` | src/llm_router_utils/sglang/srt/function_call/gemma4_detector.py:211-234 | the matching brace of printed arguments is the one behind them, whatever their strings hold |
| `GemmaWire.NestedIsBrace` | src/llm_router_utils/sglang/srt/function_call/gemma4_detector.py:211-234 | where the bracket scan of the value parser ends inside a text, the search for the matching brace ends too, at the brace before |
| `GemmaOneShot.ParsersAgree` | src/llm_router_utils/sglang/srt/function_call/gemma4_detector.py:250-439 | on a printed reply, cut in any way, streaming emits the JSON text of the printed arguments, and one-shot parsing finds the same calls with what their text up to the first end of a call is read as, on which the value parser always ends: the same arguments exactly where there is none |
| `GemmaOneShot.MatchesOfReply` | src/llm_router_utils/sglang/srt/function_call/gemma4_detector.py:250-273 | the search for calls finds exactly the printed names, and the arguments up to the first end of a call in them |
| `GemmaOneShot.SeenAsPrinted` | src/llm_router_utils/sglang/srt/function_call/gemma4_detector.py:250-273 | arguments cut off at an end of a call inside are never read as printed, and others always are |
| `GemmaOneShot.BraceCut` | src/llm_router_utils/sglang/srt/function_call/gemma4_detector.py:211-234 | a matching brace does not depend on the text behind it |
| `GemmaOneShot.ExtractToolCalls` | src/llm_router_utils/sglang/srt/function_call/gemma4_detector.py:250-273 | the loop over tokens finds the specified matches |
| `GemmaOneShot.DetectAndParse` | src/llm_router_utils/sglang/srt/function_call/gemma4_detector.py:278-307 | the calls of all matches in order, and the text before the first; the whole text where there is none |
| `GemmaOneShot.OneCallRead` | src/llm_router_utils/sglang/srt/function_call/gemma4_detector.py:250-439 | one call with one text, its tokens spelled out: what streaming emits, however it is cut, and what one-shot parsing finds |
| `QwenStream.QwenChunkInvariance` | src/llm_router_utils/sglang/srt/function_call/qwen3_coder_detector.py:246-474 | any two ways of cutting a text give the same events, final state and text held back |
| `QwenStream.ParameterEndExtends` | src/llm_router_utils/sglang/srt/function_call/qwen3_coder_detector.py:314-336 | the earliest of the three ends of a parameter, once found, is not moved by more text |
| `QwenStream.Detector.ParseStreamingIncrement` | src/llm_router_utils/sglang/srt/function_call/qwen3_coder_detector.py:246-474 | a piece of text takes the object to where the machine runs to, and emits its events |
| `QwenStream.Detector.ParameterStep` | src/llm_router_utils/sglang/srt/function_call/qwen3_coder_detector.py:306-387 | a whole parameter becomes an opening brace where due and one fragment; an incomplete one waits |
| `QwenWire.RunReply` | src/llm_router_utils/sglang/srt/function_call/qwen3_coder_detector.py:246-474 | on a printed reply, parameters with or without their own end, streaming emits all text outside calls but for what may become a tag at the end, and for each call its name and the pieces of its arguments |
| `QwenWire.RunParams` | src/llm_router_utils/sglang/srt/function_call/qwen3_coder_detector.py:306-404 | the parameters of a function and its end give one opening brace, a piece for each parameter, commas between, and one closing brace |
| `QwenWire.RawEnds` | src/llm_router_utils/sglang/srt/function_call/qwen3_coder_detector.py:314-336 | a value ends at the tag behind it, and that tag is used up only when it is the end of the parameter |
| `QwenWire.CallAddsUp` | src/llm_router_utils/sglang/srt/function_call/qwen3_coder_detector.py:345-404 | the pieces of a call add up to the text of one object with its parameters as written |
| `QwenOneShot.ParsersAgree` | src/llm_router_utils/sglang/srt/function_call/qwen3_coder_detector.py:178-474 | on a printed reply, cut in any way, both parsers find the same calls: streaming spells the parameters as written, one-shot parsing the dictionary of those in front of the first end of a call, the last cut off there; from the same values exactly where no value holds such an end and the last one loses no newline |
| `QwenOneShot.SeenAsWritten` | src/llm_router_utils/sglang/srt/function_call/qwen3_coder_detector.py:209-218 | both parsers see the same texts exactly where the last value has its own end, or is not longer than two characters, or does not end in two newlines |
| `QwenOneShot.NewlineLost` | src/llm_router_utils/sglang/srt/function_call/qwen3_coder_detector.py:39-42 | a value on which they differ |
| `QwenOneShot.SameExactly` | src/llm_router_utils/sglang/srt/function_call/qwen3_coder_detector.py:178-240 | names and texts are the same exactly under those two conditions |
| `QwenOneShot.EndInParams` | src/llm_router_utils/sglang/srt/function_call/qwen3_coder_detector.py:35 | the first end of a call among parameters stands in the first value that holds one |
| `QwenOneShot.FunctionOfCall` | src/llm_router_utils/sglang/srt/function_call/qwen3_coder_detector.py:36-38 | the search for functions finds the function of a block, whole or cut off |
| `QwenOneShot.ParametersFound` | src/llm_router_utils/sglang/srt/function_call/qwen3_coder_detector.py:209-211 | the search for parameters finds the printed ones |
| `QwenOneShot.BodiesOfReply` | src/llm_router_utils/sglang/srt/function_call/qwen3_coder_detector.py:187 | the search for call blocks finds each printed one up to the first end of a call in it |
| `QwenOneShot.DetectAndParse` | src/llm_router_utils/sglang/srt/function_call/qwen3_coder_detector.py:178-240 | normal text before the first call, and the functions of all blocks, numbered, with their parameters as a dictionary |
| `QwenOneShot.OneCallRead` | src/llm_router_utils/sglang/srt/function_call/qwen3_coder_detector.py:178-474 | one call with one parameter, its tags spelled out: what streaming emits, however it is cut, and what one-shot parsing finds |
| `QwenOneShot.FunctionFound` | src/llm_router_utils/sglang/srt/function_call/qwen3_coder_detector.py:36-38 | a function is found where its tag first stands, and then those behind it |
| `QwenOneShot.OpenCallFound` | src/llm_router_utils/sglang/srt/function_call/qwen3_coder_detector.py:187-198 | a call whose end has not come is found in the whole text, its function not ended either |
| `Strings.UnwrapExact` | src/llm_router_utils/sglang/srt/function_call/qwen3_coder_detector.py:215-219 | one newline is taken off a value at either end, where there is one |
| `HunyuanDeltas.AddsUpIffNoRaw` | src/llm_router_utils/sglang/srt/function_call/hunyuan_detector.py:458-564 | the deltas of a well-formed call are the JSON text of its arguments for every cutting of the text exactly when no string holds a control character but newline, carriage return and tab |
| `HunyuanDeltas.CallStreams` | src/llm_router_utils/sglang/srt/function_call/hunyuan_detector.py:458-564 | before the end of the call what is sent is a beginning of that text, and all of it after the end |
| `HunyuanDeltas.Sends` | src/llm_router_utils/sglang/srt/function_call/hunyuan_detector.py:470-564 | from every reachable state, a piece that does not end the call sends a beginning of what is still to be sent |
| `HunyuanDeltas.Finishes` | src/llm_router_utils/sglang/srt/function_call/hunyuan_detector.py:533-548 | the piece that ends the call sends all the rest, keeps the text behind it, and completes the arguments |
| `HunyuanDeltas.PrefixRead` | src/llm_router_utils/sglang/srt/function_call/hunyuan_detector.py:468-480 | of any beginning of the call the pair search finds exactly the closed arguments |
| `HunyuanDeltas.PartialOf` | src/llm_router_utils/sglang/srt/function_call/hunyuan_detector.py:479-497 | what is taken for a partial value is a beginning of the next argument's value, and only of one that can only be a string |
| `HunyuanDeltas.SafeIsPrefix` | src/llm_router_utils/sglang/srt/function_call/hunyuan_detector.py:511-517 | what is held back covers every beginning of the end tag |
| `HunyuanDeltas.OneShotIsWritten` | src/llm_router_utils/sglang/srt/function_call/hunyuan_detector.py:308-340 | the one-shot parser spells the same arguments with the same text |
| `HunyuanExact.MatchExact` | src/llm_router_utils/sglang/srt/function_call/hunyuan_detector.py:157-161 | what the argument pattern matches at the front of a text, whatever stands in its groups: the split with the shortest key, and nothing only where there is no split |
| `HunyuanExact.SentInTime` | src/llm_router_utils/sglang/srt/function_call/hunyuan_detector.py:470-564 | once a value has begun, the text of all arguments before it has been sent, and of its own, if it can only be a string, all but what may be the beginning of its end tag |
| `HunyuanExact.DeltasAreJson` | src/llm_router_utils/sglang/srt/function_call/hunyuan_detector.py:458-564 | all that is sent of a call, cut in any way, is the text of one JSON object: names and strings read back as written, and the other values are what they are converted to |
| `HunyuanDetector.Detector.StreamArgs` | src/llm_router_utils/sglang/srt/function_call/hunyuan_detector.py:458-564 | one call of the method is one step of the specification, in buffer, arguments, count sent, records and item |
| `HunyuanDetector.Detector.AbsorbPairs` | src/llm_router_utils/sglang/srt/function_call/hunyuan_detector.py:468-480 | the loop over matches takes over the pairs that are new and leaves the text behind the last |
| `JsonStrings.EscapeIsDump` | src/llm_router_utils/sglang/srt/function_call/hunyuan_detector.py:519-525 | the chain of replacements spells a string as json.dumps does exactly when it holds no other control character |
| `JsonStrings.RawNeverFits` | src/llm_router_utils/sglang/srt/function_call/hunyuan_detector.py:519-525 | with such a character, what is sent begins no continuation of the JSON text |
| `MistralScanner.ExtractJsonValue` | src/llm_router_utils/sglang/srt/function_call/mistral_detector.py:253-292 | the text from the bracket to where the count of its kind closes outside strings, with its end, or nothing |
| `MistralScanner.ExtractJsonArray` | src/llm_router_utils/sglang/srt/function_call/mistral_detector.py:294-336 | the same from the bracket of the first tool call marker |
| `MistralScanner.CutIsTheValue` | src/llm_router_utils/sglang/srt/function_call/mistral_detector.py:253-292 | wherever a text holds a JSON object or array, the cut from its bracket is exactly that value's text |
| `MistralScanner.ToolCallArrayIsFound` | src/llm_router_utils/sglang/srt/function_call/mistral_detector.py:294-336 | an array after the first marker is cut out whole |
| `MistralScanner.PrefixIsIncomplete` | src/llm_router_utils/sglang/srt/function_call/mistral_detector.py:253-292 | no proper prefix of an object or array is taken for a whole one |
| `MistralScanner.ValuePasses` | src/llm_router_utils/sglang/srt/function_call/mistral_detector.py:272-290 | the count passes over any JSON value inside, though only one kind of bracket is counted |
| `MistralCompact.TryParseCompactArgsFormat` | src/llm_router_utils/sglang/srt/function_call/mistral_detector.py:198-251 | the scan over markers, brackets and blanks finds the specified call, or none |
| `MistralCompact.CallFound` | src/llm_router_utils/sglang/srt/function_call/mistral_detector.py:198-251 | the first call of a text is found with its name, its arguments and where it ends, with or without the brackets that close its markers, whatever stands around it |
| `MistralCompact.CompactExtends` | src/llm_router_utils/sglang/srt/function_call/mistral_detector.py:198-251 | a call once found is found in every extension of the text |
| `MistralCompact.RowParsed` | src/llm_router_utils/sglang/srt/function_call/mistral_detector.py:93-106 | the loop finds all calls of a row in order, and leaves the text behind the last |
| `MistralCompact.RowDetected` | src/llm_router_utils/sglang/srt/function_call/mistral_detector.py:48-113 | of a text with such a row, the result is its calls in order, and the text in front and behind as normal text with a blank between |
| `MistralCompact.ArrayDetected` | src/llm_router_utils/sglang/srt/function_call/mistral_detector.py:48-91 | of a text with an array behind the marker, the result is the calls of that array, and the text in front and behind as normal text with a blank between; an array that is not complete has no calls |
| `MistralCompact.OneCallDetected` | src/llm_router_utils/sglang/srt/function_call/mistral_detector.py:48-113 | one compact call as models write it |
| `MistralCompact.CompactSound` | src/llm_router_utils/sglang/srt/function_call/mistral_detector.py:198-251 | no call is found that is not there: the text falls into a marker, a name that is not blank, a marker of arguments, and JSON text with a value |
| `MistralCompact.DetectAndParse` | src/llm_router_utils/sglang/srt/function_call/mistral_detector.py:48-113 | array, compact or plain text: the calls and normal text as specified |
| `Lfm2Keywords.RenameReservedKwargs` | src/llm_router_utils/sglang/srt/function_call/lfm2_detector.py:54-112 | the loop computes the specified renaming, and says that it changed the text exactly when it did |
| `Lfm2Keywords.CallRenamed` | src/llm_router_utils/sglang/srt/function_call/lfm2_detector.py:54-112 | renaming a printed call is printing it with its keyword argument names renamed, whatever its literals hold |
| `Lfm2Keywords.RenameIsByPiece` | src/llm_router_utils/sglang/srt/function_call/lfm2_detector.py:54-112 | on any text, cut into literals, words and signs, exactly the keywords that name arguments are changed |
| `Lfm2Keywords.EveryTextLexes` | src/llm_router_utils/sglang/srt/function_call/lfm2_detector.py:54-112 | every text is cut into such pieces, the last literal perhaps not closed |
| `Lfm2Keywords.RenameTwice` | src/llm_router_utils/sglang/srt/function_call/lfm2_detector.py:54-112 | on every text, renaming twice is renaming once |
| `Lfm2Keywords.ReservedNamesComeBack` | src/llm_router_utils/sglang/srt/function_call/lfm2_detector.py:54-127 | after renaming, parsing and restoring, the arguments are as written exactly when no name is one that renaming could have made |
| `Lfm2Keywords.RestoreUndoesRename` | src/llm_router_utils/sglang/srt/function_call/lfm2_detector.py:115-127 | restoring undoes renaming of a dictionary's keys exactly under that condition |
| `Lfm2Keywords.MarkedNameIsLost` | src/llm_router_utils/sglang/srt/function_call/lfm2_detector.py:115-127 | a name for which it does not hold |
| `Lfm2Keywords.RestoreReservedKwargNames` | src/llm_router_utils/sglang/srt/function_call/lfm2_detector.py:115-127 | the loop puts every value under its restored name, in order, a later one over an earlier one |
| `Lfm2Escape.EscapeCtrlCharsInStrings` | src/llm_router_utils/sglang/srt/function_call/lfm2_detector.py:219-256 | the loop computes the specified rewriting |
| `Lfm2Escape.SameLiterals` | src/llm_router_utils/sglang/srt/function_call/lfm2_detector.py:219-256 | the quote scanner sees the same literals in the rewritten text, only control characters in them turned into escapes |
| `Lfm2Escape.EscapePreservesMeaning` | src/llm_router_utils/sglang/srt/function_call/lfm2_detector.py:219-256 | every literal denotes what it denoted, for any meaning of escapes that agrees with Python on the four that are put in, exactly when no literal with a raw prefix holds one of the four control characters |
| `Lfm2Escape.RawLiteralIsChanged` | src/llm_router_utils/sglang/srt/function_call/lfm2_detector.py:219-256 | a raw literal with a tab, which comes to denote a backslash and a letter |
| `Lfm2Escape.RawByPrefix` | src/llm_router_utils/sglang/srt/function_call/lfm2_detector.py:219-256 | which literals are raw: those whose whole word in front is one of the eighteen prefixes with an r |
| `Lfm2Escape.EscapeTwice` | src/llm_router_utils/sglang/srt/function_call/lfm2_detector.py:219-256 | rewriting twice is rewriting once |
| `Lfm2Escape.EscapedIsClean` | src/llm_router_utils/sglang/srt/function_call/lfm2_detector.py:219-256 | the literals end up free of control characters exactly when none stood behind a backslash |
| `Lfm2Escape.NewlineBehindBackslash` | src/llm_router_utils/sglang/srt/function_call/lfm2_detector.py:219-256 | a literal that keeps its newline |
| `Lfm2Split.SplitTopLevelCalls` | src/llm_router_utils/sglang/srt/function_call/lfm2_detector.py:346-384 | the scan with start and index computes the specified split, for both modes |
| `Lfm2Blocks.SplitPrinted` | src/llm_router_utils/sglang/srt/function_call/lfm2_detector.py:346-384 | a printed block with any blanks around it is split into its calls, whatever its strings hold; and without regard to strings too, where the strings hold no brackets |
| `Lfm2Blocks.SplitBare` | src/llm_router_utils/sglang/srt/function_call/lfm2_detector.py:346-384 | so are calls without the brackets of a block, unless a bracket opens and another closes them |

## Left out

- The text of the exclusion grammar: rule names made from hashes, escaping of characters and classes, and the cache of results; a rule is a value here. Sorting of the patterns: the result holds for any order.
- The grammar library that reads the grammar, and the rules built from tool schemas around the exclusion rules.
- Schema dictionaries that are one object in two places of a document, an error raised for `properties` that is no object, entries of a `type` list that are no strings, percent-encoded pointers and `$id`. Of `oneOf` only that some branch is satisfied is used, so the result covers `anyOf` too.
- SHA-256, the check that a prior hash is 32 bytes of hexadecimal, tokens of 2^32 and more, and UTF-8: keys and salts of `KvSeed` are bytes. A parent without a key counts as one with an empty key. The code that splits tree nodes is not part of this repository: a split is any change of the tree that divides a key and its hashes between a node and a new one above it, both halves non-empty.
- IQuest bodies: `_parse_body` and `parse_base_json` are one function from a body to its calls. The record of earlier calls holds the call, not the parsed body.
- Poolside value conversion and `json.dumps` are functions; the two parsers may spell keys differently, since only streaming escapes non-ASCII keys.
- PoolsideOneShot.ParsersAgree: is about printed replies, as the two parsers are not meant to agree on malformed text; no call starts inside one whose values hold an end of a call, nor does such an end stand in a call to an unknown tool.
- The GLM detector around the transducer: the search for calls in the buffer, and number values, which the finalizer reformats. A value is quoted or copied here.
- MiniMax M3 streaming, and the removal of blanks between a namespace token and its tag. Leaf conversion is a function of text and schema.
- Gemma 4 numbers and truth values: a bare word stands for what it reads as. Streaming takes the JSON text of arguments as a function.
- Hunyuan tokens with a suffix, the search for the name of a call, and schema lookup: an argument is one that can only be a string, or its JSON text is a function of key and value.
- Mistral streaming, whose result depends on where the text is cut, and whether the text that was cut out is JSON at all: its value is a function of the text.
- LFM2's other rewritings (nested quotes, leading zeros) and everything that calls Python's parser. Python's character classes and keywords are parameters.
- GemmaOneShot.ParsersAgree: is about printed replies; no call starts inside one whose strings hold an end of a call.
- QwenOneShot.ParsersAgree: is about printed replies, one function a call, names without angle brackets; no call starts inside one whose values hold an end of a call. Value conversion and the spelling of keys are functions.
- Lfm2Escape.EscapePreservesMeaning: is about literals as the quote scanner sees them; the replacement fields of formatted literals count as their text.
- Detectors that repeat a pattern above, detectors whose result depends on where the text is cut, request handling, configuration and logging.
- Machine limits: Python's recursion limit and memory.
