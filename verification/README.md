# Agent Zero: verified core

A Dafny model of the parts of Agent Zero that carry the most logic, with proofs about them.
`dafny verify dfyconfig.toml` checks everything.

**The tolerant JSON parser** (`CodePoints`, `DirtyJson*`). Every tool call of the agent goes through it.
`DirtyJson.Parser` is the parser in its own form: a cursor, a current character, a stack of open containers,
loops that grow strings and containers. `DirtyJsonSpec` says the same on the text that is left, as functions;
every method is proved equal to its function, and the theorems are about the functions:
- *Round trip.* `DirtyJsonLayout` describes every way to lay a JSON value out: whitespace and comments between
  tokens, escapes, trailing commas. A layout in which no two `}` are adjacent parses to exactly its value.
- *Stack discipline.* On every input whatever: what may be written, what is left on the stack, which exceptions.
- *Adjacent braces.* The parser takes `}}` for one closer. `TokensRead` says exactly what it then reads of nested
  objects, and `NestedExactly` that they come back if and only if adjacent braces occur in last values only.
- *Printer.* `stringify` composed with the parser and with `json_parse_dirty`, in any prose: exactly which documents
  come back when printed on one line.
- *Streaming.* A nested object that has not arrived whole: `StreamShown` says exactly which value any beginning of it
  is read as, `StreamKeeps` exactly which beginnings keep all that has arrived, each entry of a nested object at its own
  place, and `StreamOrdered` exactly which leave a dict inside itself.
- *Truncation and tolerance.* Text that ends after a nested `{`, `[` or comma, or anywhere in a flat list; other quotes,
  no quotes, missing commas and colons; exactly which texts are numbers.

**The think-tag splitter and the model call** (`ThinkTags*`, `UnifiedCall`). `ChatGenerationResult` as a class proved
against a step function. `CutsAgreeExactly` says for which texts the cutting into chunks does not matter to reasoning
and answer; what was emitted, the removed tags and the held text are the input, in order; the retry loop
neither repeats nor mixes output.

**Backup and restore** (`Backup*`). The file system is a map from absolute paths to contents, kept in an object that
the restore changes; an archive is a sequence of names with contents and the root it was made under. Translation of
paths between roots, the filtered directory walk, creating, previewing and restoring under the three overwrite
policies, a whole round from the walk to the restore, exactly which files the patterns let through at either end, and
the grouping of the preview.

**Smaller machines.** `DeferredTask`: the kill tree, on the heap, with the done callback that runs inside `cancel`.
`Modals`: the modal stack and its z-order. `AreaCache*`: the cache refines what its history of calls says.
`AgentChain`: where a message to a context goes, how an answer climbs the chain of superiors, and that a context has at
most one unfinished run.

In `DirtyJsonSpec` a container is a number into a list of containers, so that aliasing, a dict that contains itself
included, can be stated. A `nat` parameter called `o` is the number of the container being filled; `base` is the stack below it.

## Where the code and its promises differ

- `}}` closes one object, not two (`agent-zero/helpers/dirty_json.py:163`): compact nested text is read wrongly unless
  only closers follow. See `DirtyJsonStringify.StringifyExactly`, `DirtyJsonBraces.NestedExactly` and, for lists,
  `DirtyJsonLastList.LastListExactly`.
- `{{` skips three characters (`agent-zero/helpers/dirty_json.py:117-119`, and `_parse_object` once more):
  `DirtyJsonDoubleBrace.DoubleBraceExactly`.
- A response that has arrived up to the opening brace or a comma of a nested object loses that object with all its entries,
  finished ones too, and the lost dict contains itself (`agent-zero/helpers/dirty_json.py:160`, `188-190`):
  `DirtyJsonStreamExact.StreamKeeps`, `DirtyJsonStreamExact.StreamOrdered`, `DirtyJsonTruncation.OpenAtEnd`.
- One that has arrived up to an opening bracket, or to the sign or the `e` of a number, does not parse, and one cut inside
  a key overwrites an earlier entry if that part is its key: `DirtyJsonStreamExact.StreamKeepsExactly`, `DirtyJsonTruncation.BracketAtEnd`.
- A value without quotes takes the delimiter after it, also the brace of its own object
  (`agent-zero/helpers/dirty_json.py:308-319`): `DirtyJsonTolerance.BareValueTakesBrace`.
- A thinking tag that is not at the start of the text counts or not, depending on where the stream is cut
  (`agent-zero/models.py:145-167`): `ThinkTagsCutting.CutsAgreeExactly`.
- `unified_call` returns the fields, so an answer that ends in what may be the start of an opening tag loses that
  ending for some chunkings (`agent-zero/models.py:571`): `ThinkTagsStream.FieldsIndependence`. `output()` shows an
  answer that is nothing but such a start as reasoning: `ThinkTagsStream.OutputIndependence`.
- Under "skip", the preview lists an entry again for each further entry with the same new target, and misses files
  that are cleaned first: `BackupTheorems.SkipForetellsExactly`. Backup names carry the time to the second:
  `BackupTheorems.BackupLosesExactly`.
- `toggleModal("")` closes from the top, not by path: `Modals.EmptyPathToggle`.
- `handle_intervention` calls the coroutine `set_progress` without awaiting it (`agent-zero/agent.py:835`,
  `agent-zero/helpers/tool.py:32-35`), so the tool keeps the progress just saved: `AgentChain.Agent.HandleIntervention`.

## Model

| member | source | states |
|---|---|---|
| DirtyJsonDiscipline.ParseDiscipline | agent-zero/helpers/dirty_json.py:34-52 | on every text: never pops or reads an empty stack; fails only on a malformed number (`NumberExactly` says which are), or by storing into the wrong kind of container once the input is used up; ends with an empty stack unless the input is used up; the value is a container that exists |
| DirtyJsonDiscipline.ValueDiscipline | agent-zero/helpers/dirty_json.py:114-138 | reading one value never rewrites a container that existed before, restores the stack unless the input ran out, and returns only a container made by this call; whatever else stays on the stack was made by it too |
| DirtyJsonDiscipline.ObjectDiscipline | agent-zero/helpers/dirty_json.py:159-195 | the content of an object goes into the dict on top of the stack at entry and into newer containers, nowhere else; the stack at exit is the one below that dict unless the input ran out |
| DirtyJsonDiscipline.ObjectStepDiscipline | agent-zero/helpers/dirty_json.py:160-195 | each round of the object loop keeps that: it goes round again only with the same dict on top |
| DirtyJsonDiscipline.MemberDiscipline | agent-zero/helpers/dirty_json.py:175-186 | one key and value: the store goes to the object being read, unless its value used the input up |
| DirtyJsonDiscipline.ArrayDiscipline | agent-zero/helpers/dirty_json.py:222-243 | the same for the content of an array |
| DirtyJsonDiscipline.ArrayStepDiscipline | agent-zero/helpers/dirty_json.py:223-243 | the same for each round of the array loop |
| DirtyJsonDiscipline.ElementDiscipline | agent-zero/helpers/dirty_json.py:229-243 | the value just read is appended to the array being read, or, at the end of input only, meets the container it left open |
| DirtyJsonDiscipline.ParseOrdered | agent-zero/helpers/dirty_json.py:34-52 | on every text: if the stack ends empty, no container is inside itself, at any depth |
| DirtyJsonDiscipline.ValueOrdered | agent-zero/helpers/dirty_json.py:114-138 | a value that restores the stack keeps every reference leading to a newer container |
| DirtyJsonRoundTrip.ValueRead | agent-zero/helpers/dirty_json.py:114-138 | for every well-formed layout without adjacent closing braces, parsing yields exactly the value laid out and stops exactly behind it, touching no older container |
| DirtyJsonRoundTrip.ArrayRead | agent-zero/helpers/dirty_json.py:215-220 | the same for an array in brackets, with or without a trailing comma |
| DirtyJsonRoundTrip.ItemsRead | agent-zero/helpers/dirty_json.py:222-243 | reading the inside of an array extends the list by exactly the values laid out, in order, and closes it |
| DirtyJsonRoundTrip.NextItemRead | agent-zero/helpers/dirty_json.py:222-243 | an element followed by a comma, a trailing one included |
| DirtyJsonRoundTrip.ElementRead | agent-zero/helpers/dirty_json.py:224-230 | one element with trivia around it is appended in its place |
| DirtyJsonRoundTrip.ObjectRead | agent-zero/helpers/dirty_json.py:152-157 | the same for an object in braces |
| DirtyJsonRoundTrip.MembersRead | agent-zero/helpers/dirty_json.py:159-195 | reading the inside of an object overrides the dict by exactly the entries laid out, later keys winning, and closes it |
| DirtyJsonRoundTrip.MemberRead | agent-zero/helpers/dirty_json.py:161-195 | one entry with trivia around its tokens, up to the comma or brace |
| DirtyJsonRoundTrip.EntryRead | agent-zero/helpers/dirty_json.py:175-186 | a key, a colon and a value between trivia are stored under that key |
| DirtyJsonRoundTrip.SkipBlanks | agent-zero/helpers/dirty_json.py:68-95 | any sequence of whitespace, line and block comments is skipped, and nothing after it |
| DirtyJsonRoundTrip.SkipLineBody | agent-zero/helpers/dirty_json.py:83-87 | a line comment ends behind its newline |
| DirtyJsonRoundTrip.SkipBlockBody | agent-zero/helpers/dirty_json.py:89-95 | a block comment ends behind its first closing mark |
| DirtyJsonRoundTrip.PiecesRead | agent-zero/helpers/dirty_json.py:245-281 | a string body of raw characters, two-character escapes and `\uXXXX` escapes decodes to the characters meant, up to its closing quote |
| DirtyJsonRoundTrip.QuotedRead | agent-zero/helpers/dirty_json.py:245-281 | a quoted string is read whole, and looks like a triple quote only when empty before another quote |
| DirtyJsonRoundTrip.IntRead | agent-zero/helpers/dirty_json.py:295-306 | an integer literal, signed or not, gives its number |
| DirtyJsonRoundTrip.FloatLiteralRead | agent-zero/helpers/dirty_json.py:295-306 | a float literal is read as the float it writes |
| DirtyJsonNumbers.NumberExactly | agent-zero/helpers/dirty_json.py:295-306 | every text of number characters that starts with a digit or a sign: an optional sign and digits give the integer, digits with an optional point, digits behind it and an optional exponent the float, everything else a ValueError |
| DirtyJsonNumbers.FloatRead | agent-zero/helpers/dirty_json.py:295-306 | any sign, digits, point, digits and exponent put together are read as that float, unless they start with the point or have neither point nor exponent |
| DirtyJsonNumbers.PointFirst | agent-zero/helpers/dirty_json.py:122-133 | a literal that starts with its point is read as a text |
| DirtyJsonDecimals.DecimalAccepted | agent-zero/helpers/dirty_json.py:303-306 | `float` takes every such literal |
| DirtyJsonDecimals.AcceptedDecimal | agent-zero/helpers/dirty_json.py:303-306 | and no other text |
| DirtyJsonRoundTrip.WordRead | agent-zero/helpers/dirty_json.py:126-131 | true, false and null are read as such, whatever follows |
| DirtyJsonRoundTrip.ScalarRead | agent-zero/helpers/dirty_json.py:120-138 | every scalar layout is read as its value, and nothing past it |
| DirtyJsonLayout.ReadsFrame | agent-zero/helpers/dirty_json.py:152-157 | a value read earlier is still the same value after containers outside it changed |
| DirtyJsonNesting.EndRead | agent-zero/helpers/dirty_json.py:163-169 | with adjacent braces allowed where only closers follow, the value read is still exactly the one laid out |
| DirtyJsonNesting.MembersAtEnd | agent-zero/helpers/dirty_json.py:159-195 | an object whose last entry nests more objects, before nothing but closers, gets exactly its entries |
| DirtyJsonNesting.LastAtEnd | agent-zero/helpers/dirty_json.py:180-195 | its last entry is stored although the brace of the object may be gone |
| DirtyJsonNesting.OverrunRead | agent-zero/helpers/dirty_json.py:163-169 | an object whose last value ends in `}}` holds all its entries but stays open, and reads on in what follows |
| DirtyJsonLastList.LastListExactly | agent-zero/helpers/dirty_json.py:163-169 | for every list whose last element ends in two adjacent braces, as the last value at any depth, with only closers to follow: the value comes back as it was written if and only if that element maps "" to "" |
| DirtyJsonLastList.LastListRead | agent-zero/helpers/dirty_json.py:152-243 | because it is read as the value with that entry added, and only closers are left |
| DirtyJsonLastList.ItemsEnd | agent-zero/helpers/dirty_json.py:222-243 | the array loop on such a list |
| DirtyJsonLastList.BracketSwallowed | agent-zero/helpers/dirty_json.py:204-213 | a closing bracket that an open object meets becomes the entry "" with value "" |
| DirtyJsonTokens.TokensRead | agent-zero/helpers/dirty_json.py:152-195 | for every sequence of entries, openings and closing braces, balanced or not and whatever braces are adjacent: the object being read gets exactly the entries `Val`, exactly the tokens `Left` remain, nothing older is written |
| DirtyJsonTokens.InnerRead | agent-zero/helpers/dirty_json.py:152-157 | the same for the value of an object, from its opening brace on |
| DirtyJsonTokens.LeafRead | agent-zero/helpers/dirty_json.py:175-195 | an entry whose value is no object is stored, and the object reads on |
| DirtyJsonTokens.OpenRead | agent-zero/helpers/dirty_json.py:152-195 | a nested object takes all tokens until it closes, and the object around it goes on with those it leaves |
| DirtyJsonTokens.CloseRead | agent-zero/helpers/dirty_json.py:162-171 | a closing brace ends the object, an adjacent one is taken with it |
| DirtyJsonBraces.NestedExactly | agent-zero/helpers/dirty_json.py:152-195 | for every nested object with distinct keys whose other values are separated, laid out in any way, in any prose: it comes back as it was written if and only if adjacent braces occur in last values only |
| DirtyJsonBraces.ValExactly | agent-zero/helpers/dirty_json.py:152-195 | the same of the entries read, at any depth with only closing braces to follow; no key is ever added |
| DirtyJsonBraces.SeparatedTokens | agent-zero/helpers/dirty_json.py:162-171 | an object without adjacent braces inside takes its own tokens, its own entries, and one brace more if it follows directly |
| DirtyJsonBraces.UnseparatedJumps | agent-zero/helpers/dirty_json.py:163-164 | an object with adjacent braces inside takes two braces as one before it closes |
| DirtyJsonBraces.Spent | agent-zero/helpers/dirty_json.py:162-171 | what an object uses up closes at least one object more than it opens, at least two more once two braces were taken as one |
| DirtyJsonBraces.NetTokens | agent-zero/helpers/dirty_json.py:152-195 | inside its own text an object never closes more objects than it opened |
| DirtyJsonBraces.LeftWithin | agent-zero/helpers/dirty_json.py:152-195 | so nothing of its own text is left when an object closes |
| DirtyJsonBraces.LeftBeyond | agent-zero/helpers/dirty_json.py:163-164 | after two braces taken as one, nothing of the object around it is left either |
| DirtyJsonBraces.SiblingsLost | agent-zero/helpers/dirty_json.py:163-195 | the entries behind an object with adjacent braces are missing from the object around it |
| DirtyJsonBraces.TokensAreText | agent-zero/helpers/dirty_json.py:152-195 | the tokens of an object are its text |
| DirtyJsonLayout.ReadsUnique | agent-zero/helpers/dirty_json.py:114-138 | a parsed value is at most one JSON value |
| DirtyJsonTools.ParseFromProse | agent-zero/helpers/dirty_json.py:34-52 | prose without `{`, `[` and `"` before an object, array or string, and any text after it, do not change what is parsed |
| DirtyJsonTools.ParseScalarText | agent-zero/helpers/dirty_json.py:332-335 | numbers and words parse to their value when the text holds none of the three start characters |
| DirtyJsonTools.ParseNestedAtEnd | agent-zero/helpers/dirty_json.py:163-169 | a nested object at the end of the text parses to its value, adjacent braces included |
| DirtyJsonTools.StartAfter | agent-zero/helpers/dirty_json.py:332-335 | parsing starts at the first of the three start characters |
| DirtyJsonTools.RFindChar | agent-zero/helpers/extract_tools.py:29 | the last index of the character, -1 exactly when there is none |
| DirtyJsonTools.ExtractFromProse | agent-zero/helpers/extract_tools.py:23-35 | the object text is found again in stripped prose without `{` before it and `}` after it |
| DirtyJsonTools.ToolCallFromProse | agent-zero/helpers/extract_tools.py:7-20 | every laid out object survives such prose through `json_parse_dirty`, adjacent braces at its end included |
| DirtyJsonTools.MembersEnd | agent-zero/helpers/extract_tools.py:29-35 | the text of an object ends in its own brace |
| DirtyJsonTools.ExtractUnclosed | agent-zero/helpers/extract_tools.py:23-35 | without a `}` everything from the first `{` on is taken; without a `{`, or if the last `}` stands before the first `{`, nothing |
| DirtyJsonTools.RequestFromUnclosed | agent-zero/helpers/extract_tools.py:7-20 | of an object text that is cut off before any `}`, in prose, `json_parse_dirty` returns what the parser makes of it if that is a dict, else None |
| DirtyJsonTools.RequestFromText | agent-zero/helpers/extract_tools.py:7-20 | `json_parse_dirty` finds a given dict in prose around an object text if and only if the parser finds it in the text alone |
| DirtyJsonStringify.StringifyExactly | agent-zero/helpers/dirty_json.py:14-15 | for every document with distinct keys in its dicts and flat lists: it comes back from what `stringify` printed if and only if it was indented or its dicts nest as last values only along its end |
| DirtyJsonStringify.ToolCallExactly | agent-zero/helpers/extract_tools.py:7-20 | so a printed tool call survives prose around it through `json_parse_dirty` exactly then |
| DirtyJsonStringify.EntriesShape | agent-zero/helpers/dirty_json.py:14-15 | what is printed of a dict has its keys, its flat lists and its nesting |
| DirtyJsonStringify.StringifyRoundTrip | agent-zero/helpers/dirty_json.py:14-15 | for every document, repeated keys included: it comes back if it was indented, or if its dicts nest as last values only along its end |
| DirtyJsonStringify.DumpsSeparated | agent-zero/helpers/dirty_json.py:14-15 | printing keeps closing braces apart if and only if it is indented or no dict is the last value of a dict |
| DirtyJsonStringify.DumpsValue | agent-zero/helpers/dirty_json.py:14-15 | what is printed, on one line or indented, is a well-formed layout of the printed value |
| DirtyJsonStringify.DumpsNested | agent-zero/helpers/dirty_json.py:14-15 | one-line printing has adjacent braces at the end only, if nested dicts come last |
| DirtyJsonStringify.ToolCallRoundTrip | agent-zero/helpers/extract_tools.py:7-20 | the same through `json_parse_dirty`, with prose on both sides |
| DirtyJsonStringify.Digits | agent-zero/helpers/dirty_json.py:14-15 | decimal printing is inverted by decimal reading |
| DirtyJsonStringify.PieceOf | agent-zero/helpers/dirty_json.py:14-15 | every character is printed as an escape that decodes to it |
| DirtyJsonStreamExact.StreamShown | agent-zero/agent.py:969-984 | for every beginning of a nested object of strings, words, numbers without sign and exponent, and objects, blanks between its tokens, keys without escapes: it parses, to exactly the value `Shown` says, entries finished inside unfinished objects included; the stack is left empty unless the text ends right behind an opening brace or a comma |
| DirtyJsonStreamExact.StreamOrdered | agent-zero/helpers/dirty_json.py:159-195 | of these beginnings exactly those that end right behind the opening brace or a comma of a nested object leave a dict that contains itself; after the others no container is inside itself at any depth |
| DirtyJsonStreamExact.StreamKeeps | agent-zero/agent.py:969-984 | with distinct keys in each object: everything that has arrived is in the result, each entry at its own path and the last value as far as it is there, if and only if the text does not end right behind the opening brace or a comma of a nested object, nor inside a key at a part that is an earlier key of the same object, of a value other than null |
| DirtyJsonStreamExact.StreamKeepsExactly | agent-zero/agent.py:969-984 | for every nested object, lists and numbers of any form allowed: all beginnings but those that end right behind a nested opening brace or comma keep everything, if and only if there is no list and no number with a sign or an exponent in it, and at every depth a key that begins a later one of its object has the value null |
| DirtyJsonStreamExact.ShownKept | agent-zero/helpers/dirty_json.py:159-195 | the same of the object loop: what was read before stays too |
| DirtyJsonStreamExact.SomeOverwrite | agent-zero/helpers/dirty_json.py:175-186 | if a key begins a later one and is not that of a null, some beginning overwrites it |
| DirtyJsonStreamExact.NeverOverwrites | agent-zero/helpers/dirty_json.py:175-186 | otherwise none does |
| DirtyJsonStreamExact.BehindChar | agent-zero/helpers/dirty_json.py:188-190 | a text that ends right behind an opening brace or a comma ends in that character |
| DirtyJsonStreamExact.StreamFails | agent-zero/helpers/dirty_json.py:186-306 | an object with a list or a number with a sign or an exponent at any depth has a beginning that does not parse |
| DirtyJsonStreamExact.BracketStops | agent-zero/helpers/dirty_json.py:215-223 | text that ends right after the opening bracket of a value leaves a list open, which takes no key |
| DirtyJsonStreamExact.MinusStops | agent-zero/helpers/dirty_json.py:295-306 | text that ends right after the minus sign of an integer raises ValueError |
| DirtyJsonStreamExact.FloatStops | agent-zero/helpers/dirty_json.py:295-306 | text that ends right after the sign of a float, or right after its `e`, raises ValueError |
| DirtyJsonStreamExact.SomeStop | agent-zero/helpers/dirty_json.py:152-195 | at any depth of nesting |
| DirtyJsonStream.ContentCut | agent-zero/helpers/dirty_json.py:159-195 | any beginning of the content of such an object: the dict gets exactly the entries `Shown`, no older container is written, the object is left open exactly if the text ends right behind its opening brace or a comma, and a nested one left open holds itself |
| DirtyJsonStream.EntryCut | agent-zero/helpers/dirty_json.py:175-195 | the same of one entry cut anywhere, or whole with blanks behind it |
| DirtyJsonStream.HeadCut | agent-zero/helpers/dirty_json.py:175-184 | an entry cut before its value: the part of the key that is there maps to None |
| DirtyJsonStream.ClosedInside | agent-zero/helpers/dirty_json.py:179-195 | a nested object that is closed at the end of the text is stored as far as it was read |
| DirtyJsonStream.OpenInside | agent-zero/helpers/dirty_json.py:160-186 | one left open gets itself under the key, and the outer object stays open as it was: the exact containers |
| DirtyJsonStream.ScalarCut | agent-zero/helpers/dirty_json.py:120-138 | a word cut short is read as a text, a number as the digits there, a string as the characters there |
| DirtyJsonStream.WordCut | agent-zero/helpers/dirty_json.py:126-133 | the beginning of true, false or null is read as a text |
| DirtyJsonStream.DigitsCut | agent-zero/helpers/dirty_json.py:295-306 | the beginning of a number is read as a number |
| DirtyJsonStream.FloatCut | agent-zero/helpers/dirty_json.py:295-306 | so is the beginning of a float: up to the point it is an integer, with it a float |
| DirtyJsonListCut.ListCut | agent-zero/helpers/dirty_json.py:222-243 | every beginning of a list of strings, words and numbers without sign and exponent: the list of exactly the elements that have arrived, the last one as far as it is there, on an empty stack; it is left open exactly right behind its bracket, and blanks alone there are read as a None |
| DirtyJsonListCut.ItemsCut | agent-zero/helpers/dirty_json.py:222-243 | the same of the array loop, with elements read before |
| DirtyJsonListCut.CutItem | agent-zero/helpers/dirty_json.py:231-243 | a list that ends in the middle of an element |
| DirtyJsonCut.PiecesCut | agent-zero/helpers/dirty_json.py:245-281 | a string cut anywhere is read as the characters that are there; cut inside a `\u` escape it shows the escape as it stands |
| DirtyJsonCut.QuotedCut | agent-zero/helpers/dirty_json.py:245-281 | the same of a quoted string, and nothing is left |
| DirtyJsonDoubleBrace.DoubleBraceExactly | agent-zero/helpers/dirty_json.py:117-119 | for every object that starts with a spare character or with a plain key, its keys distinct: after `{{` it is read as it was written if and only if it starts with a spare character, a blank or a third slash |
| DirtyJsonDoubleBrace.DoubleBraceSpare | agent-zero/helpers/dirty_json.py:117-119 | for every text that starts with a spare character two braces are as good as one |
| DirtyJsonDoubleBrace.DoubleBraceKey | agent-zero/helpers/dirty_json.py:117-119 | an object that starts with a plain key gets that key with its closing quote as a part, and all its other entries |
| DirtyJsonDoubleBrace.DoubleBraceEmpty | agent-zero/helpers/dirty_json.py:117-119 | an empty object loses its brace: it is empty at the end of the text, and takes the members of an object text that follows |
| DirtyJsonDoubleBrace.DoubleBraceText | agent-zero/helpers/dirty_json.py:117-119 | whatever the third character is, it is lost |
| DirtyJsonOddKey.OddKeyComesBack | agent-zero/helpers/dirty_json.py:117-119 | a concrete object that starts with a key that is not plain comes back as it was written all the same |
| DirtyJsonDoubleBrace.FirstRenamed | agent-zero/helpers/dirty_json.py:175-195 | an object whose first key is read as another gets its value under that, and all other entries |
| DirtyJsonTruncation.BraceAtEnd | agent-zero/helpers/dirty_json.py:159-186 | an object text that ends right after a nested `{` leaves the object unchanged and the inner dict holding itself, both open: the exact containers |
| DirtyJsonTruncation.OpenAtEnd | agent-zero/helpers/dirty_json.py:159-190 | the same with any beginning of the inner object that ends right behind an opening brace or a comma in it: it holds what `Shown` says, and itself under the key; everything older is unchanged |
| DirtyJsonTruncation.BracketAtEnd | agent-zero/helpers/dirty_json.py:186-223 | right after a nested `[` it raises TypeError |
| DirtyJsonTruncation.ParseBraceAtEnd | agent-zero/helpers/dirty_json.py:34-52 | so `{"key": {` parses to an empty dict, and `{"key": [` does not parse |
| DirtyJsonTolerance.QuotedByAny | agent-zero/helpers/dirty_json.py:120-124 | a string between any of the three quotes is read as written; as a key, between two of them |
| DirtyJsonTolerance.TripleQuoted | agent-zero/helpers/dirty_json.py:283-293 | a triple-quoted string ends at the first triple quote and is stripped |
| DirtyJsonTolerance.BareKey | agent-zero/helpers/dirty_json.py:204-213 | a key without quotes ends before the blank, colon, comma or closer after it |
| DirtyJsonTolerance.BareValue | agent-zero/helpers/dirty_json.py:308-319 | a value without quotes is everything up to the next delimiter, stripped; the delimiter is gone |
| DirtyJsonTolerance.BareValueTakesBrace | agent-zero/helpers/dirty_json.py:159-195 | so `key: value}` stores the entry and leaves the object open for what follows |
| DirtyJsonTolerance.WordInAnyCase | agent-zero/helpers/dirty_json.py:126-131 | true, false, null and undefined in any mix of cases are read as booleans and None |
| DirtyJsonTolerance.EscapeRead | agent-zero/helpers/dirty_json.py:248-271 | what each character behind a backslash stands for, between any quotes; a character without a meaning is dropped with the backslash |
| DirtyJsonTolerance.UnicodeRead | agent-zero/helpers/dirty_json.py:260-275 | four hexadecimal digits in any case behind `\u` stand for the character of that number, a lone surrogate too |
| DirtyJsonTolerance.UnicodeKept | agent-zero/helpers/dirty_json.py:264-275 | with other letters among the four the escape is kept as written and the string goes on; `0x` and two digits are taken for a number |
| DirtyJsonTolerance.UnicodeShort | agent-zero/helpers/dirty_json.py:264-267 | with less than four letters and digits the string ends there, without its closing quote |
| DirtyJsonTolerance.BlankExactly | agent-zero/helpers/dirty_json.py:68-84 | what separates tokens, code point by code point |
| DirtyJsonTolerance.StripExactly | agent-zero/helpers/dirty_json.py:283-319 | `strip` takes all blanks from both ends and nothing else |
| DirtyJsonTolerance.MissingComma | agent-zero/helpers/dirty_json.py:188-195 | an entry with another one behind it and no comma is stored, and the object reads on |
| DirtyJsonTolerance.MissingColon | agent-zero/helpers/dirty_json.py:175-186 | a key with its value behind it and no colon: the value is stored under the key |
| DirtyJsonTolerance.MissingCommaInList | agent-zero/helpers/dirty_json.py:231-243 | in a list the element behind which a comma is missing is the last one |
| DirtyJson.Parser.Advance | agent-zero/helpers/dirty_json.py:61-66 | the text left is the old one without its first characters, none beyond the end |
| DirtyJson.Parser.Peek | agent-zero/helpers/dirty_json.py:321-330 | up to n characters after the current one; nothing moves |
| DirtyJson.Parser.SkipSingleLineComment | agent-zero/helpers/dirty_json.py:83-87 | the cursor is behind the newline, or at the end |
| DirtyJson.Parser.SkipMultiLineComment | agent-zero/helpers/dirty_json.py:89-95 | the cursor is behind the closing mark, or at the end |
| DirtyJson.Parser.SkipWhitespace | agent-zero/helpers/dirty_json.py:68-81 | the loop leaves exactly the text without its leading trivia |
| DirtyJson.Parser.Match | agent-zero/helpers/dirty_json.py:140-150 | moves over the word if the text starts with it in any case, else not at all |
| DirtyJson.Parser.ParseUnquotedKey | agent-zero/helpers/dirty_json.py:204-213 | the loop computes key and rest of `UnquotedKey` |
| DirtyJson.Parser.ParseUnquotedString | agent-zero/helpers/dirty_json.py:308-319 | the loop computes `UnquotedBody`, stripped |
| DirtyJson.Parser.ParseString | agent-zero/helpers/dirty_json.py:245-281 | the loop computes text and rest of `StringBody`, of which `PiecesRead` and `PiecesCut` are proved |
| DirtyJson.Parser.ParseEscape | agent-zero/helpers/dirty_json.py:248-271 | what a backslash adds and whether it ends the string |
| DirtyJson.Parser.CollectUnicode | agent-zero/helpers/dirty_json.py:258-265 | four alphanumerics, or as many as there are |
| DirtyJson.Parser.ParseMultilineString | agent-zero/helpers/dirty_json.py:283-293 | the loop computes `MultilineBody`, stripped |
| DirtyJson.Parser.ParseNumber | agent-zero/helpers/dirty_json.py:295-306 | an integer, else a float, else ValueError, as Python decides |
| DirtyJson.Parser.ParseKey | agent-zero/helpers/dirty_json.py:197-202 | a quoted or an unquoted key, trivia before it skipped |
| DirtyJson.Parser.PopStack | agent-zero/helpers/dirty_json.py:170 | the top container leaves the stack; IndexError when there is none |
| DirtyJson.Parser.StoreItem | agent-zero/helpers/dirty_json.py:186 | the dict on top gets the entry; TypeError for a list, IndexError for no container |
| DirtyJson.Parser.AppendItem | agent-zero/helpers/dirty_json.py:229 | the list on top gets the element; AttributeError for a dict, IndexError for no container |
| DirtyJson.Parser.ParseObject | agent-zero/helpers/dirty_json.py:152-157 | a new dict, filled as `ObjectContent` says |
| DirtyJson.Parser.ParseArray | agent-zero/helpers/dirty_json.py:215-220 | a new list, filled as `ArrayContent` says |
| DirtyJson.Parser.ParseMember | agent-zero/helpers/dirty_json.py:175-186 | one entry, as `Member` says, of which the round trip and the discipline are proved |
| DirtyJson.Parser.ObjectIteration | agent-zero/helpers/dirty_json.py:160-195 | one round of the loop is `ObjectStep`: same outcome, same heap, same stack, same cursor |
| DirtyJson.Parser.CloseObject | agent-zero/helpers/dirty_json.py:162-169 | `}}` and `}` alike close one object |
| DirtyJson.Parser.AfterMember | agent-zero/helpers/dirty_json.py:188-195 | comma, end of input, or anything else |
| DirtyJson.Parser.ParseObjectContent | agent-zero/helpers/dirty_json.py:159-195 | the whole loop is `ObjectContent`, and ends on every input |
| DirtyJson.Parser.ArrayIteration | agent-zero/helpers/dirty_json.py:223-243 | one round of the loop is `ArrayStep` |
| DirtyJson.Parser.AfterElement | agent-zero/helpers/dirty_json.py:231-243 | comma, trailing comma, closing bracket, or the end of the array |
| DirtyJson.Parser.ParseArrayContent | agent-zero/helpers/dirty_json.py:222-243 | the whole loop is `ArrayContent`, and ends on every input |
| DirtyJson.Parser.ParseValue | agent-zero/helpers/dirty_json.py:114-138 | value, heap, stack and cursor are those of `ParseValue` in the specification |
| DirtyJson.Parser.ParseScalar | agent-zero/helpers/dirty_json.py:120-138 | the scalar branches, in the order of the source |
| DirtyJson.Parser.ParseWord | agent-zero/helpers/dirty_json.py:126-133 | true, false, null, undefined, in this order |
| DirtyJson.Parser.GetStartPos | agent-zero/helpers/dirty_json.py:332-335 | the least index of the three start characters, 0 without any |
| DirtyJson.Parser.Parse | agent-zero/helpers/dirty_json.py:34-52 | on a new parser: outcome, containers and the text left are those of `Parse`; the cursor ends at or behind the start position |
| ThinkTagsStream.ChunkingIndependence | agent-zero/models.py:108-185 | for every stream opening tag, reasoning, closing tag, answer without opening tags, cut in any way: it ends with exactly the reasoning, and with the answer as response plus held text, the latter empty or a proper beginning of an opening tag |
| ThinkTagsStream.OutputIndependence | agent-zero/models.py:187-195 | `output()` gives reasoning and answer for every way of cutting if and only if the answer is empty, or the reasoning is, or the answer is no proper beginning of an opening tag |
| ThinkTagsStream.FieldsIndependence | agent-zero/models.py:571 | the fields that `unified_call` returns give the answer for every way of cutting if and only if no ending of the answer is a proper beginning of an opening tag |
| ThinkTagsCutting.CutsAgreeExactly | agent-zero/models.py:108-195 | for every text whatever: all ways of cutting it into chunks give the same reasoning and the same answer, held text counted where it belongs, if and only if the text starts with an opening tag and what follows its closing tag holds none, or it does not and an opening tag stands in it only behind a beginning of one |
| ThinkTagsCutting.ThoughtAgrees | agent-zero/models.py:131-170 | the same for texts that start with an opening tag, closed or not |
| ThinkTagsCutting.PlainTracks | agent-zero/models.py:145-170 | without a tag at the start, and none where a chunk may begin, nothing becomes reasoning and nothing is lost |
| ThinkTagsCutting.PlainTagSeen | agent-zero/models.py:145-152 | a tag behind text that is not held is lost if the stream is cut there, and passes if it is not cut |
| ThinkTagsCutting.AnswerTagSeen | agent-zero/models.py:131-152 | a tag anywhere in an answer likewise |
| ThinkTagsCutting.EndlessTracks | agent-zero/models.py:131-144 | a thought that is never closed is reasoning and held text, however it is cut |
| ThinkTagsNative.NativeStream | agent-zero/models.py:108-122 | for every stream whose first chunk brings reasoning of its own: the reasoning is all reasoning deltas in order, the response all response deltas in order, nothing is held |
| ThinkTagsNative.NativeFrom | agent-zero/models.py:108-122 | from any chunk with reasoning on both grow by exactly those, and held text and an open thought stay as they are |
| ThinkTagsStream.CutInAnswer | agent-zero/models.py:145-159 | the cut that shows it: the rest of the answer is held and never released |
| ThinkTagsStream.ReceiveTracks | agent-zero/models.py:108-170 | after every part of such a stream the state is one of three: still in the opening tag, in the thought with everything accounted for, behind it |
| ThinkTagsStream.StepTracks | agent-zero/models.py:108-170 | each chunk, of any length, keeps that |
| ThinkTagsStream.ClosingInWindow | agent-zero/models.py:131-144 | searching a later piece of the stream finds the closing tag exactly when the piece reaches past it |
| ThinkTagsStream.StopsInTag | agent-zero/models.py:178-185 | text that stops inside the closing tag is held back |
| ThinkTagsStream.Straddle | agent-zero/models.py:178-185 | a tag that straddles a boundary leaves its beginning at the end of the first part |
| ThinkTagsStream.OpeningTag | agent-zero/models.py:145-167 | text that starts with an opening tag starts a span; a proper beginning of one is held |
| ThinkTagsStream.OutsideHoldsOrPasses | agent-zero/models.py:145-167 | outside a span, text without an opening tag in front is held or passed on whole |
| ThinkTagsLog.Conservation | agent-zero/models.py:108-170 | for every chunk sequence without native reasoning: the emitted pieces and removed tags in order, then the held text, are the input; the fields are what was emitted |
| ThinkTagsLog.HeldText | agent-zero/models.py:124-185 | for every such sequence: outside a span the held text is empty or a proper beginning of an opening tag; inside, what was emitted since the tag plus the held text never contains the closing tag |
| ThinkTagsLog.StepAccounts | agent-zero/models.py:129-170 | one chunk: emitted pieces, removed tags and newly held text are the held text and the chunk |
| ThinkTagsLog.ContainsTail | agent-zero/models.py:178-185 | text that does not end in the beginning of a tag can be emitted without a tag arising at the seam |
| ThinkTags.ChatGenerationResult.constructor | agent-zero/models.py:97-106 | nothing received yet |
| ThinkTags.ChatGenerationResult.AddChunk | agent-zero/models.py:108-122 | new state and emitted deltas are those of the step function; once a chunk brings native reasoning, all text passes through |
| ThinkTags.ChatGenerationResult.ProcessThinkingChunk | agent-zero/models.py:124-127 | the held text goes in front of the chunk and is no longer held |
| ThinkTags.ChatGenerationResult.ProcessThinkingTags | agent-zero/models.py:129-170 | state and deltas of the step function; the loop over the pairs stops at the first that decides |
| ThinkTags.ChatGenerationResult.ProcessInside | agent-zero/models.py:131-144 | the search for the closing tag, written out twice in the source |
| ThinkTags.ChatGenerationResult.IsPartialOpening | agent-zero/models.py:172-176 | true exactly for non-empty proper beginnings of the tag |
| ThinkTags.ChatGenerationResult.IsPartialClosing | agent-zero/models.py:178-185 | true exactly when the text ends in a non-empty proper beginning of the closing tag |
| ThinkTags.ChatGenerationResult.Output | agent-zero/models.py:187-195 | the held text is appended to the reasoning if nothing was answered, else to the response |
| UnifiedCall.UnifiedCall | agent-zero/models.py:513-580 | at most max_retries + 1 attempts; transient failures, in a streamed call before any chunk, are tried again until an attempt completes or the attempts are used up; a permanent failure, or in a streamed call one after a chunk, is the last attempt, a chunk that cannot be parsed included; a result holds the last attempt's chunks alone; each callback's deltas add up to the returned text, and each `full` is what it was given so far |
| UnifiedCall.DeliverAll | agent-zero/models.py:529-555 | the chunks of one attempt into a new result, the callbacks told exactly its text |
| UnifiedCall.Deliver | agent-zero/models.py:533-555 | one chunk: what a callback was given in all is the field, before and after |
| UnifiedCall.Report | agent-zero/models.py:538-549 | a further callback call keeps every `full` right and leaves the other callback alone |
| BackupPaths.TranslateUnder | agent-zero/helpers/backup.py:752-797 | a file under the backed up root lands at the same relative path under the current root, extra slashes in front of that path lost |
| BackupPaths.ThereAndBack | agent-zero/helpers/backup.py:752-797 | from one root to another and back is the identity if and only if the relative part is not empty and starts with no slash; roots are arbitrary, `/` included |
| BackupPaths.TranslateOutside | agent-zero/helpers/backup.py:793-797 | a path outside the backed up root stays |
| BackupPaths.TranslateBareRoot | agent-zero/helpers/backup.py:785-792 | the root itself becomes the current root |
| BackupPaths.TranslateInjective | agent-zero/helpers/backup.py:752-797 | distinct files under the root never land on one path |
| BackupPaths.TranslateName | agent-zero/helpers/backup.py:778-797 | archive names, without their leading slash, translate as the absolute path did |
| BackupPaths.TranslatePatterns | agent-zero/helpers/backup.py:197-240 | every pattern is translated in its place as a path would be; all stay when the archive names no root |
| BackupPaths.PatternUnder | agent-zero/helpers/backup.py:197-240 | a pattern under the backed up root moves under the current root, extra slashes lost; the root itself becomes the current root |
| BackupPaths.PatternOutside | agent-zero/helpers/backup.py:197-240 | any other pattern stays, and all do if the archive names no root |
| BackupPaths.TranslateWithoutRoot | agent-zero/helpers/backup.py:770-773 | an entry of an archive that names no root goes to its own path from the root of the file system |
| BackupTheorems.BackupThenRestore | agent-zero/helpers/backup.py:588-750 | archiving files under one root (not `/`) and restoring under another, overwriting, without patterns, cleaning or I/O errors: each content is at the same relative path, every other path is unchanged, every entry is reported restored |
| BackupTheorems.RestoreRelocates | agent-zero/helpers/backup.py:669-728 | the same after every number of entries |
| BackupTheorems.PackUnder | agent-zero/helpers/backup.py:397-409 | the archive holds exactly the files that were matched, in order, with the root they were under |
| BackupTheorems.PackUnderContent | agent-zero/helpers/backup.py:400-409 | and the content of each |
| BackupTheorems.PackedContent | agent-zero/helpers/backup.py:400-409 | whatever the paths, if their archive names differ each entry holds its own file's content |
| BackupTheorems.EntriesPartitioned | agent-zero/helpers/backup.py:669-735 | the restored, skipped and failed lists partition the archive's files, each in archive order; without I/O errors none failed |
| BackupTheorems.SkipKeepsFiles | agent-zero/helpers/backup.py:683-693 | under "skip" no file that was there is changed or removed |
| BackupTheorems.BackupLosesNothing | agent-zero/helpers/backup.py:694-699 | under "backup", with backup names that are new and differ from one another, every old content is at its own path or at one of its backup names, whatever fails and however many entries share a target |
| BackupTheorems.BackupLosesExactly | agent-zero/helpers/backup.py:694-699 | with new backup names, writable targets and contents that differ from the old: every old content survives if and only if no later matched entry with the same existing target is restored in the second of the first |
| BackupTheorems.WhereaboutsAfter | agent-zero/helpers/backup.py:683-728 | after every number of entries: an old content is at its own path exactly if no matched entry had that target, and at a backup name exactly if the first such entry used that name and none since |
| BackupTheorems.BackupNamesDiffer | agent-zero/helpers/backup.py:695-697 | different targets or seconds give different backup names |
| BackupTheorems.PreviewForetells | agent-zero/helpers/backup.py:515-560 | for policies other than "skip", cleaning or not: the preview lists exactly the entries the restore attempts, in order, and the same skipped ones for the same reasons |
| BackupTheorems.SkipForetells | agent-zero/helpers/backup.py:515-560 | under "skip" without cleaning the same, if no two entries share a target that does not exist yet |
| BackupTheorems.SkipForetellsExactly | agent-zero/helpers/backup.py:515-560 | under "skip" without I/O errors, for every set of cleaned files: preview and restore list the same entries if and only if no two entries share a target that does not exist yet and no existing target of a matched entry is cleaned |
| BackupTheorems.CleanedRestored | agent-zero/helpers/backup.py:683-728 | an entry whose target was cleaned is restored |
| BackupTheorems.PreviewListsNew | agent-zero/helpers/backup.py:530-546 | what a preview lists under "skip" does not exist |
| BackupTheorems.CleanedElsewhere | agent-zero/helpers/backup.py:515-546 | files cleaned that are no targets do not change the preview |
| BackupTheorems.PreviewExceeds | agent-zero/helpers/backup.py:530-537 | otherwise the preview lists more than the restore writes |
| BackupTheorems.AttemptedIsRestored | agent-zero/helpers/backup.py:701-735 | without I/O errors everything attempted is restored |
| BackupTheorems.AllRestored | agent-zero/helpers/backup.py:669-735 | overwriting without patterns and errors restores every entry |
| BackupPatterns.PatternsDecide | agent-zero/helpers/backup.py:669-735 | with restore patterns, under every policy, cleaning and set of unwritable paths: what is restored was accepted by the matcher and is at its translated path; exactly the entries the matcher refuses there are skipped as not matched; every accepted one is restored, failed because its path cannot be written, or skipped under "skip" |
| BackupPatterns.PatternsForeseen | agent-zero/helpers/backup.py:515-546 | the preview: exactly the refused entries are skipped as not matched, exactly the accepted ones that exist under "skip" as existing, exactly the others are listed |
| BackupPatterns.NoPatterns | agent-zero/helpers/backup.py:677-693 | without patterns nothing is skipped as not matched |
| BackupPatterns.RefusedWriteNothing | agent-zero/helpers/backup.py:683-728 | a path that is neither the target of an accepted entry nor its backup is as it was: refused entries change no file |
| BackupPatterns.LastEntryWins | agent-zero/helpers/backup.py:694-728 | under "overwrite" and "backup" a path holds the content of the last accepted entry that goes there |
| BackupPatterns.FirstEntryStays | agent-zero/helpers/backup.py:683-728 | under "skip" a new path holds the content of the first accepted entry that goes there |
| BackupPatterns.FileNamesExactly | agent-zero/helpers/backup.py:487-489 | the files of an archive are its names in order without `metadata.json` and `checksums.json` |
| BackupService.RestoreBackup | agent-zero/helpers/backup.py:610-750 | the loop leaves file system and report exactly as the entry-by-entry specification says, cleaned files removed first |
| BackupService.PreviewRestoreLoop | agent-zero/helpers/backup.py:515-546 | the loop computes the specified preview and changes no file |
| BackupService.CreateBackup | agent-zero/helpers/backup.py:397-413 | the loop computes the specified archive; no match is an error |
| BackupService.ListFiles | agent-zero/helpers/backup.py:487-489 | the archive's names without the two metadata files |
| BackupRestoreSpec.Present | agent-zero/helpers/backup.py:405-406 | exactly the matched files that still exist |
| BackupWalk.TestPatterns | agent-zero/helpers/backup.py:242-325 | for every tree: the result is the first max_files of all matches in walk order |
| BackupWalk.ExplicitFileReached | agent-zero/helpers/backup.py:267-280 | a file whose path and parents are explicit is found however many of its directories are hidden |
| BackupWalk.NamedFileReached | agent-zero/helpers/backup.py:174-195 | so a file that an include pattern names literally is found if the matcher accepts it |
| BackupWalk.GetExplicitPatterns | agent-zero/helpers/backup.py:174-190 | exactly the literal patterns and every path cut before one of its slashes |
| BackupWalk.WithParents | agent-zero/helpers/backup.py:181-188 | one literal pattern with all its parents |
| BackupWalk.SplitParents | agent-zero/helpers/backup.py:184-188 | splitting at slashes and joining beginnings yields exactly the parents |
| BackupWalk.FilterDirs | agent-zero/helpers/backup.py:267-280 | hidden directories are dropped unless explicit |
| BackupWalk.MatchFiles | agent-zero/helpers/backup.py:282-313 | the matches of one directory, up to the limit |
| BackupWalkExact.FoundExactly | agent-zero/helpers/backup.py:267-313 | for every tree: a path is found if and only if it is that of a file of the tree which the patterns accept, which can be read, and of which, unless hidden names are included, every hidden directory on the way and the file itself, if hidden, is named explicitly |
| BackupWalkExact.FoundPasses | agent-zero/helpers/backup.py:267-313 | whatever is found lies in the tree and passes |
| BackupWalkExact.PassesFound | agent-zero/helpers/backup.py:267-313 | whatever lies in the tree and passes is found |
| BackupRoundTrip.BackUpAndRestore | agent-zero/helpers/backup.py:242-750 | for every tree with distinct names: what the walk matches, archived and restored under another root, overwriting, is at the same relative paths with its content, everything else is unchanged, every match is reported restored; no match, no archive |
| BackupRoundTrip.WalkUnder | agent-zero/helpers/backup.py:267-313 | what the walk finds are different relative paths under its root, also when it stops early |
| BackupRoundTrip.DirJoined | agent-zero/helpers/backup.py:270-300 | every match is its path in the tree, joined to the root |
| BackupRoundTrip.DirRelsDistinct | agent-zero/helpers/backup.py:270-300 | no two matches share a path |
| BackupGrouping.GroupFiles | agent-zero/api/backup_preview_grouped.py:60-97 | each group holds exactly the files of its path, in order, with their count and size, is truncated exactly if one of them is deep, and names exactly their next directories; fails exactly where a negative depth indexes out of range |
| BackupGrouping.GroupingConserves | agent-zero/api/backup_preview_grouped.py:60-97 | group counts and sizes add up to the totals: every file is in exactly one group |
| BackupGrouping.GroupsAddUp | agent-zero/api/backup_preview_grouped.py:60-97 | the same for every set of groups |
| BackupGrouping.NoMixedDepths | agent-zero/api/backup_preview_grouped.py:71-78 | for a depth of at least 1 no group mixes deeper files with others |
| BackupGrouping.GroupShape | agent-zero/api/backup_preview_grouped.py:71-78 | the slashes of a group's path tell the two kinds apart |
| BackupGrouping.ShallowGroup | agent-zero/api/backup_preview_grouped.py:71-78 | a file that is not deep belongs to the directory it lies in, one without a directory to the root |
| BackupGrouping.DeepGroup | agent-zero/api/backup_preview_grouped.py:71-97 | a deep file belongs to the beginning of its path with `max_depth` names, or without the last `-max_depth`, and the next name is listed as its subdirectory |
| BackupGrouping.DeepExactly | agent-zero/api/backup_preview_grouped.py:71-75 | a file is deep exactly if its stripped path has at least `max_depth` slashes |
| BackupGrouping.PastTheFront | agent-zero/api/backup_preview_grouped.py:94-97 | a depth that counts from the end past the front raises an IndexError |
| BackupGrouping.DisplayGroup | agent-zero/api/backup_preview_grouped.py:99-111 | displayed plus additional is the group's count; displayed is a beginning of at most 50 |
| DeferredTask.KillTree | agent-zero/helpers/defer.py:147-168 | on every acyclic graph of tasks: ends, cancels exactly the running descendants, empties all their child lists, changes nothing outside |
| DeferredTask.KillTwice | agent-zero/helpers/defer.py:147-168 | `kill` twice on any acyclic graph leaves exactly what it leaves once |
| DeferredTask.KillAgain | agent-zero/helpers/defer.py:147-168 | a kill of a tree that was killed, with all the tasks it had, changes nothing, inside or outside |
| DeferredTask.Complete | agent-zero/helpers/defer.py:109-111 | when a task finishes, every task below it is done and without children; nothing else changes |
| DeferredTask.Restart | agent-zero/helpers/defer.py:173-175 | everything below is killed, the task itself runs |
| DeferredTask.Task.Kill | agent-zero/helpers/defer.py:147-168 | the same from the middle of another kill: tasks already emptied stay as they are |
| DeferredTask.Task.KillChildren | agent-zero/helpers/defer.py:165-168 | likewise; the task's own future is untouched |
| DeferredTask.Task.KillEach | agent-zero/helpers/defer.py:166-167 | the loop: each child is done, with everything below it |
| DeferredTask.Task.Cancel | agent-zero/helpers/defer.py:150-151 | the done callback that runs inside the cancel finds nothing left to do |
| DeferredTask.Task.OnTaskDone | agent-zero/helpers/defer.py:109-111 | kills what is still registered, and nothing if it was emptied before |
| DeferredTask.Task.AddChildTask | agent-zero/helpers/defer.py:177-180 | the child is registered last |
| DeferredTask.Task.StartTask | agent-zero/helpers/defer.py:92-107 | the task runs |
| DeferredTask.AllBelowDone | agent-zero/helpers/defer.py:147-168 | if every emptied task's former children are emptied and done, everything below is |
| DeferredTask.StrictlyBelow | agent-zero/helpers/defer.py:147-168 | no task is its own descendant |
| Modals.ModalStack.UpdateModalZIndexes | a0-webui/js/modals.js:155-188 | z-indexes rise by 20 up the stack; the backdrop shows exactly if some modal wants it, strictly below the topmost that does and strictly above every modal under it |
| Modals.ModalStack.OpenModal | a0-webui/js/modals.js:353-359 | one modal more on top, the rest as it was; z-order, backdrop and saved session right |
| Modals.ModalStack.ContentLoaded | a0-webui/js/modals.js:321-336 | new flags of a modal; z-order, backdrop and saved session right |
| Modals.ModalStack.FocusModal | a0-webui/js/modals.js:108-119 | the first modal of that path goes to the top, the others keep their order |
| Modals.ModalStack.EnsureModalOpen | a0-webui/js/modals.js:426-429 | the first modal of that path comes to the top, or a new one does; the others keep their order |
| Modals.ModalStack.CloseModal | a0-webui/js/modals.js:443-546 | exactly the first modal of that path, or the top one, is gone if the hooks allow it |
| Modals.ModalStack.RemoveModal | a0-webui/js/modals.js:480-545 | one modal out, order kept, everything placed again |
| Modals.ModalStack.ToggleModal | a0-webui/js/modals.js:431-441 | ends; with a named path: if it returns true after closing, exactly the modals of that path are gone, and a refused close removes no modal of another path; with the empty path: everything from the first modal of that path upward is gone, and after a refused close only top modals are; a refused close leaves a modal of the path |
| Modals.ModalStack.PersistRestorableModalStack | a0-webui/js/modals.js:63-81 | saved is the list of restorable modals, unless a restore is under way |
| Modals.ModalStack.ActivateModal | a0-webui/js/modals.js:96-102 | every placing condition holds again |
| Modals.ModalStack.RefreshModalStack | a0-webui/js/modals.js:377-384 | likewise |
| Modals.ModalStack.RestoreSession | a0-webui/js/modals.js:386-424 | each saved path is open again, from an empty stack exactly the saved paths in their order, nothing is closed; while the session is reopened the saved one is not overwritten |
| Modals.ModalStack.EndRestore | a0-webui/js/modals.js:386-424 | then saved is the list of restorable modals again |
| Modals.EmptyPathToggle | a0-webui/js/modals.js:431-441 | with an empty path exactly its modals are closed if and only if no other modal lies above the first of them |
| Modals.ToggleStep | a0-webui/js/modals.js:435-438 | each round removes a modal of that path |
| Modals.WithoutMembers | a0-webui/js/modals.js:11-13 | what is left are exactly the modals of other paths, leading slashes ignored |
| Modals.SnapshotMembers | a0-webui/js/modals.js:57-61 | the saved session names exactly the restorable modals |
| Modals.SnapshotInOrder | a0-webui/js/modals.js:57-61 | from the bottom of the stack to its top |
| Modals.FindModalIndex | a0-webui/js/modals.js:104-106 | the first modal of that path, -1 exactly when there is none |
| AreaCacheHistory.GetReturnsLastAdd | agent-zero/helpers/cache.py:49-57 | after every history of calls: the lookup gives v if and only if the area is enabled and v was the last effective add, not evicted since |
| AreaCacheHistory.LookupIsLiveAdd | agent-zero/helpers/cache.py:29-97 | an entry is present with value v exactly if some add of v is live |
| AreaCacheHistory.ApplyIsNext | agent-zero/helpers/cache.py:29-97 | every call acts on each entry alone; trim evicts exactly the matching entries last touched before the cutoff; calls on a disabled area change nothing |
| AreaCacheHistory.TimestampIsLastTouch | agent-zero/helpers/cache.py:106-111 | the timestamp of a live entry is its last add, get or has |
| AreaCacheHistory.EnabledAgrees | agent-zero/helpers/cache.py:100-103 | enabled is what the last toggles said |
| AreaCacheHistory.ClearedExactly | agent-zero/helpers/cache.py:68-76 | clearing a pattern with `*`, `?` or `[` removes exactly the entries of the areas it matches, any other exactly those of the area of that name |
| AreaCacheHistory.TrimmedExactly | agent-zero/helpers/cache.py:79-92 | trimming removes exactly those of these entries that are older than the cutoff |
| AreaCache.Cache.Has | agent-zero/helpers/cache.py:29-37 | state and result as the next state of the history says: the answer, and the entry touched |
| AreaCache.Cache.Add | agent-zero/helpers/cache.py:40-46 | state and result as the next state of the history says: the entry replaced, nothing if disabled |
| AreaCache.Cache.Get | agent-zero/helpers/cache.py:49-57 | state and result as the next state of the history says: the value or the default, and the entry touched |
| AreaCache.Cache.Remove | agent-zero/helpers/cache.py:60-65 | state and result as the next state of the history says: the entry gone, nothing if disabled |
| AreaCache.Cache.Clear | agent-zero/helpers/cache.py:68-76 | state and result as the next state of the history says: the area gone, or all that match a pattern |
| AreaCache.Cache.ClearAll | agent-zero/helpers/cache.py:95-97 | state and result as the next state of the history says: no area left |
| AreaCache.Cache.TrimCache | agent-zero/helpers/cache.py:79-92 | state and result as the next state of the history says: the loop over areas leaves exactly the trimmed cache, empty areas dropped only if they were trimmed |
| AreaCache.Cache.TrimOneArea | agent-zero/helpers/cache.py:82-92 | state and result as the next state of the history says: one area trimmed |
| AreaCache.Cache.Toggle | agent-zero/helpers/cache.py:20-26 | state and result as the next state of the history says: the switches set |
| AgentChain.AgentContext.Communicate | agent-zero/agent.py:248-269 | a running context: the message is the intervention of exactly the first min(level, chain length) agents upward, all if the level is negative, and no run starts; otherwise one run starts and no intervention changes |
| AgentChain.AgentContext.ProcessChain | agent-zero/agent.py:283-302 | each agent of the superior chain has one monologue, bottom-up, on its own history plus its subordinate's answer; the answer of the last is returned; after an exception no superior is touched; afterwards the first agent is the current one |
| AgentChain.AgentContext.BeginMonologue | agent-zero/agent.py:388 | during its monologue an agent is the current one |
| AgentChain.AgentContext.EndMonologue | agent-zero/agent.py:505-506 | however it ends, the first agent is the current one again |
| AgentChain.Step | agent-zero/agent.py:223-302 | each message, nudge, reset, chain of answers or end of a run keeps every run but the current one finished |
| AgentChain.AnyRun | agent-zero/agent.py:223-302 | over every sequence of these no two runs of a context are unfinished |
| AgentChain.AgentContext.Nudge | agent-zero/agent.py:237-241 | whatever ran is over, one new run, nobody interrupted |
| AgentChain.AgentContext.Reset | agent-zero/agent.py:229-234 | whatever ran is over, the new agent is the current one |
| AgentChain.AgentContext.RunTask | agent-zero/agent.py:271-280 | a new run in the context's task; whether one is alive is not asked here |
| AgentChain.AgentContext.KillProcess | agent-zero/agent.py:224-226 | every run is over |
| AgentChain.AgentContext.Finish | agent-zero/agent.py:271-280 | a run ends by itself; at most one is still unfinished |
| AgentChain.Agent.HandleIntervention | agent-zero/agent.py:822-840 | a waiting intervention is taken once: first what the tool reported, then the answer so far, each unless blank, then the message enter the history, and it stops the agent; otherwise nothing happens; the tool keeps its progress, because line 835 does not await the coroutine |
| AgentChain.HeardOnce | agent-zero/agent.py:248-269 | a message to a running context enters an interrupted agent's history once |
| AgentChain.ChainDistinct | agent-zero/agent.py:260-264 | a superior chain that ends passes no agent twice |
| AgentChain.Agent.Speak | agent-zero/agent.py:285-291 | one turn: the entry heard, then what the monologue adds |

## Left out

- Unicode classes: `isdigit` and `isalnum` are ASCII, `lower` too; `isspace` is Python's full list.
- The value of a float: its literal is kept, and printed as it is. Python's limit on the digits of an `int` is not modelled, nor are `nan` and the infinities.
- The order of dict keys; the RecursionError on deeply nested input; `try_parse`, which asks `json.loads` first.
- `DirtyJson.feed` and `_continue_parsing`: resuming starts again at the beginning of the buffer with a stack already popped.
- DirtyJsonDoubleBrace.DoubleBraceExactly: a first key that holds a blank, colon, comma, closer or comment mark, or starts with a single quote, and an object that starts with a comment of another kind; `DirtyJsonOddKey.OddKeyComesBack` shows that no rule on the first characters holds for them.
- DirtyJsonTools.ParseFromProse: the text before the value holds no `{`, `[` or `"`, because parsing starts at the first of them.
- DirtyJsonStringify.StringifyExactly: repeated keys, and lists that hold a dict whose last value is a dict; these are read wrongly in ways that depend on each of their elements. `LastListExactly` decides those where only the last element ends in two braces and only closers follow.
- DirtyJsonStreamExact.StreamKeepsExactly: keys are written without escapes and no comments stand between tokens, because a cut comment is read as text; closing braces are not adjacent. Of a text cut inside a list, `ListCut` states what is read if the list is flat and stands alone.
- Other quotes and missing quotes in the round trip; they have their own statements in `DirtyJsonTolerance`.
- The helpers `extract_json_string` and `fix_json_string`, which match with regular expressions.
- Native reasoning in the stream theorems of `ThinkTagsStream` and `ThinkTagsCutting`; `ThinkTagsNative` has its own.
- UnifiedCall.UnifiedCall: the provider is a function from attempt numbers to outcomes, an exception in a callback counts as the provider's; the token callback and the rate limiter are seen only in whether the call streams; the delay between attempts is left out.
- Building the model's messages and arguments, parsing provider chunks, embeddings.
- Zip files, pathspec, `os.stat` and `os.walk`: an archive is names and contents, matching and readability are predicates on paths, the tree is given, with no links, in walk order.
- BackupService.RestoreBackup: a path is a file or absent, directories appear when needed, a file that cannot be written stays as it was after its backup was moved; moving into a directory and partly written files are not modelled.
- BackupTheorems.BackupLosesExactly: time stamps have the fifteen characters of the format; a content equal to the one it replaces is the same content.
- BackupWalk.NamedFileReached: the matcher is given, and an exclude pattern may make it refuse the file.
- BackupTheorems.BackupThenRestore: the root `/` is excluded, because under it a file may carry the name of the metadata.
- BackupRoundTrip.BackUpAndRestore: a root has at most one slash at its end; what can be read exists, and nothing changes between the walk and the archive.
- Which files are cleaned before a restore: they are given; deleting them does not fail.
- Metadata of an archive other than its root, its checksums, and files that cannot be read into it.
- The order of groups in the preview and the search filter.
- Threads: a future's state changes in steps, and the done callback of a cancel runs inside it; terminating a thread, draining a loop and calls from several threads are not modelled.
- DeferredTask.Task.Kill: the graph of children is acyclic, because the source would not end on a cycle.
- Modals.ModalStack.CloseModal: one atomic step; the source finds the index before it awaits the hooks and uses it afterwards.
- Modals.ModalStack.OpenModal: hooks that cancel or rename, elements, scrolling and events are left out; an index is a position at the time of the step.
- AreaCache.Cache.TrimCache: times and ages are integers, file-name patterns an arbitrary predicate; `get` answers None where the source returns the caller's default.
- AgentChain.AgentContext.ProcessChain: a monologue is a function of its agent, the history and the waiting intervention, and does not itself change the chain, the current agent or the superiors; extensions, logging, prompts and the rendering of history are left out.
- AgentChain.AgentContext.Communicate: the chain of superiors ends, as the source needs; an agent's superior is set when it is created; killing a run does not show its child tasks, which `DeferredTask` has.
- AgentChain.Agent.HandleIntervention: waiting while the context is paused.
- Request handlers, proxies, routing and scripts.
