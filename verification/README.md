# DynaJson core in Dafny

A model of the core of DynaJson, a JSON library for .NET, with proofs about it.
It covers the following parts:

- **The parser** (`JsonParser`) lexes UTF-16 text by hand and builds the tree
  with an explicit stack of open containers, bounded by a maximum depth. It
  reports every failure with a golden message naming the 0-based offset.
- **Its helpers:**
  - the array-backed `Stack<T>`;
  - the chunked `StringBuffer`;
  - the escape decoder.
- **The type cache.** `TypeDictionary<T>` is a linear append-only cache
  scanned newest-first. `ReflectionCache<T>.Get` is the get-or-compute
  wrapper over it.
- **The member-kind rules of `ReflectiveOperation`**, which decide how each
  property reads a tree node or writes one.
- **Two goto-driven explicit-stack conversion machines:**
  - tree → .NET value, `JsonObject.ConvertTo`;
  - .NET value → tree, `JsonObject.ConvertFrom`.

Text is a sequence of UTF-16 code units (`Text16.Char16`), so positions count
code units as the source's `_position` does. Numbers are exact reals. .NET
types and values are a datatype, `NativeValues`. Reflection is a record of
oracles, `NativeValues.Reflection`, which gives a class's public properties,
whether it has a default constructor, and `Convert.ChangeType`.

`Stack<T>` and `TypeDictionary<T>` are immutable datatypes here: each
operation returns the new stack or cache rather than mutating arrays in
place, and the arrays' capacity is kept as a field so growth can be stated.

Each loop is a step function plus a `Run` that iterates it. Each is paired
with an independent recursive reading, and the entry point's contract says
the loop returns exactly what the reading gives:

| loop | recursive reading | entry point |
|---|---|---|
| parser | `JsonGrammar.ParseDocument` | `JsonParser.Parse` |
| `ConvertTo` | `ConvertTo.ConvertValue` | `ConvertTo.Convert` |
| `ConvertFrom` | `ConvertFrom.FromNative` | `ConvertFrom.Convert` |

The properties are stated on the recursive readings:

- the depth bound and unique keys of parsed trees;
- element order and cast errors in conversion;
- setters filling exactly the named members;
- round trips: converting from .NET to a tree and back gives the value.

Modules, leaf first:

| module | contents |
|---|---|
| `Results` | shared `Option`/`Result` |
| `Text16` | UTF-16 text and decimal rendering |
| `Stacks` | `Stack.cs` |
| `TypeDictionaries` | `TypeDictionary.cs` |
| `JsonTree` | the tree and the dictionary's insert rules |
| `ParseErrors` | exception messages |
| `JsonLexer` | whitespace, tokens, numbers, escapes, strings |
| `StringBuffers` | `StringBuffer` and `GetString` |
| `JsonGrammar` | the recursive reading of the parser |
| `JsonParser` | the loop, its equality with the grammar, and `Parse` |
| `ParserExamples` | parser examples |
| `NativeValues` | .NET types and values |
| `CastMessages` | cast messages |
| `ReflectiveOperation` | `ReflectiveOperation.cs` |
| `ConvertTo`, `ConvertToProperties` | `JsonObject.ConvertTo.cs` |
| `ConvertFrom`, `ConvertFromProperties`, `ConvertFromExamples` | `JsonObject.ConvertFrom.cs` |
| `RoundTrip` | the two directions together |

## Model

| member | source | states |
|---|---|---|
| Text16.DecimalText | DynaJson/JsonParser.cs:424-452 | the position and depth in a message are written in decimal with no leading zero, and the digits read back as the number |
| Stacks.New | DynaJson/Stack.cs:8-10 | a new stack is empty with capacity 8 |
| Stacks.Resize | DynaJson/Stack.cs:15-16 | growing the array keeps every existing element in its slot |
| Stacks.Push | DynaJson/Stack.cs:13-18 | the element goes on top and everything below is unchanged; the capacity doubles exactly when the array was full |
| Stacks.Pop | DynaJson/Stack.cs:21-24 | returns the top element and leaves the rest, with the array unchanged |
| Stacks.SetCount | DynaJson/Stack.cs:10 | setting `Count` to n keeps the array; lowering it leaves the bottom n elements (0 empties the stack) |
| Stacks.PushPop | DynaJson/Stack.cs:13-24 | `Pop` after `Push(x)` returns x and restores the contents and `Count` |
| Stacks.PushAll | DynaJson/Stack.cs:13-18 | pushing a sequence appends it above the existing contents |
| Stacks.LastInFirstOut | DynaJson/Stack.cs:13-24 | popping as many elements as were pushed returns them reversed and restores the stack |
| Stacks.PopManyContents | DynaJson/Stack.cs:21-24 | popping depends only on the contents, not on the spare capacity |
| TypeDictionaries.New | DynaJson/TypeDictionary.cs:8-10 | a new cache has no entries and arrays of 5 |
| TypeDictionaries.Insert | DynaJson/TypeDictionary.cs:13-24 | returns its value argument; appends the pair after the existing entries, which survive; the arrays double to 2·count when full |
| TypeDictionaries.Newest | DynaJson/TypeDictionary.cs:27-38 | reference for newest-first lookup: found iff some entry has the key, and then the value of such an entry |
| TypeDictionaries.Scan | DynaJson/TypeDictionary.cs:29-37 | the downward loop over the first n entries returns the newest match among them, or false with the default value |
| TypeDictionaries.TryGetValue | DynaJson/TypeDictionary.cs:27-38 | as written: the result is newest-first lookup over the entries before index `_count` only |
| TypeDictionaries.InsertShiftsScan | DynaJson/TypeDictionary.cs:13-30 | after `Insert`, the scanned range is exactly the entries before it, so the new pair is outside it |
| TypeDictionaries.NewestEntryInvisible | DynaJson/TypeDictionary.cs:13-30 | a key inserted for the first time is not found by the next lookup |
| TypeDictionaries.TryGetValueFixed | DynaJson/TypeDictionary.cs:27-38 | corrected lookup from index `_count`: newest-first over every entry |
| TypeDictionaries.FixedFindsNewest | DynaJson/TypeDictionary.cs:13-38 | with the corrected lookup, an inserted key is found with its value and other keys are unaffected |
| JsonTree.Keys | DynaJson.Test/JsonDictionaryTest.cs:172-184 | the keys in insertion order |
| JsonTree.IndexOf | DynaJson.Test/JsonDictionaryTest.cs:163-169 | the position of the first entry with the key; none iff the key is absent |
| JsonTree.TryGetValue | DynaJson.Test/JsonDictionaryTest.cs:163-169 | found iff the key is present, and then the value stored under it |
| JsonTree.Add | DynaJson.Test/JsonDictionaryTest.cs:143-150 | `Add` leaves the dictionary alone when the key is present and otherwise appends it; keys stay unique |
| JsonTree.AddLookup | DynaJson.Test/JsonDictionaryTest.cs:143-150 | after `Add` an existing key keeps its first value, a new key reads the added value, and other keys are unaffected |
| JsonTree.Set | DynaJson.Test/JsonDictionaryTest.cs:153-160 | the indexer keeps the key order, appending a new key; keys stay unique |
| JsonTree.SetLookup | DynaJson.Test/JsonDictionaryTest.cs:153-160 | after the indexer the key reads the new value and other keys are unaffected |
| ParseErrors.Render | DynaJson/JsonParser.cs:424-427 | a message is the message word, a space, the item, " at " and the position in decimal: each part sits at its own offset |
| ParseErrors.Message | DynaJson/JsonParser.cs:429-452 | every failure's message ends with its position in decimal |
| ParseErrors.MessageOpening | DynaJson/JsonParser.cs:429-447 | an `Expecting` failure opens with "Expecting", an unexpected character or end with "Unexpected", a bad escape with "Invalid", each followed by a space |
| ParseErrors.NestingMessage | DynaJson/JsonParser.cs:449-452 | the nesting message opens with "Too deep nesting" and names depth + 1 right after it |
| JsonLexer.SkipWhiteSpaces | DynaJson/JsonParser.cs:197-206 | the first non-whitespace position at or after p, where whitespace is space, tab, CR and LF |
| JsonLexer.CheckToken | DynaJson/JsonParser.cs:228-237 | succeeds iff the literal's remaining units follow; otherwise "Expecting" names the first mismatching unit at its offset |
| JsonLexer.DigitRun | DynaJson/JsonParser.cs:251-255 | the maximal run of digits |
| JsonLexer.GetFraction | DynaJson/JsonParser.cs:256-268 | an optional `.` with at least one digit; "Expecting digit" after a bare `.` |
| JsonLexer.GetExponent | DynaJson/JsonParser.cs:269-288 | an optional `e`/`E`, an optional sign, then at least one digit; "Expecting digit" where the digit is missing |
| JsonLexer.GetNumber | DynaJson/JsonParser.cs:240-290 | the consumed text is a number lexeme `-? digit+ (. digit+)? ([eE][+-]? digit+)?` (leading zeros allowed); on failure, the position after `-`, `.`, `e` or the sign holds no digit |
| JsonLexer.LexemeWitness | DynaJson/JsonParser.cs:240-290 | the pieces the lexer consumed form a number lexeme |
| JsonLexer.GetExponentLongest | DynaJson/JsonParser.cs:269-286 | `GetExponent` stops at the end of the longest text that is an exponent part or one digit short of one; it succeeds iff the text it read is an exponent part, and otherwise fails "Expecting digit" exactly where it stopped |
| JsonLexer.ExponentStop | DynaJson/JsonParser.cs:269-286 | no text that agrees with the input from the `e` through one unit past where `GetExponent` stopped is an exponent part |
| JsonLexer.GetNumberLongest | DynaJson/JsonParser.cs:240-290 | `GetNumber` stops at the end of the longest number lexeme, or of the longest text one digit short of one; it succeeds iff what it read is a lexeme, and otherwise fails "Expecting digit" exactly where it stopped |
| JsonLexer.NumberStop | DynaJson/JsonParser.cs:240-290 | no text that agrees with the input from the number's start through one unit past where `GetNumber` stopped is a number lexeme |
| JsonLexer.NumberErrorViable | DynaJson/JsonParser.cs:244-281 | where `GetNumber` fails, the text it read plus one digit is a number lexeme |
| JsonLexer.UnEscapeUnicode | DynaJson/JsonParser.cs:393-419 | succeeds iff four hex digits of either case follow `\u`; otherwise it names the first non-hex unit and its offset |
| JsonLexer.UnEscape | DynaJson/JsonParser.cs:358-390 | the eight simple escapes map per the table, `\u` defers to the unicode escape, and anything else is an invalid escape at its offset |
| JsonLexer.ScanString | DynaJson/JsonParser.cs:298-328 | a decoded string ends just after a closing quote and holds no raw unit below 0x20; an unexpected end is reported only at the end of the input, an unexpected character only for a raw unit below 0x20 at its own offset, an invalid escape at the unit after a backslash that is neither in the escape table nor `u`, and an invalid `\u` escape at a non-hex unit |
| StringBuffers.Append | DynaJson/JsonParser.cs:347-354 | the buffer's content is extended by the chunk; it grows to exactly the needed size only when too small |
| StringBuffers.TakeString | DynaJson/JsonParser.cs:336-344 | returns the buffered content followed by the last chunk and resets the position to 0 |
| StringBuffers.GetString | DynaJson/JsonParser.cs:298-328 | spilling 32-unit chunks into the buffer gives exactly the string the unit-by-unit decoder gives, and leaves the buffer empty on success |
| StringBuffers.HexDigit | DynaJson/JsonParser.cs:393-419 | the hex digit the unicode-escape decoder reads back as n |
| StringBuffers.ControlEscapeDecodes | DynaJson/JsonParser.cs:393-419 | `\u00XY` written with the hex digits of a control unit decodes to that unit |
| StringBuffers.EscapeRoundTrip | DynaJson/JsonParser.cs:298-419 | any text, escaped and followed by a quote, decodes back to itself and ends after the quote |
| JsonParser.WithTop | DynaJson/JsonParser.cs:161-179 | replacing the current context keeps the depth and makes the new frame current |
| JsonParser.ValueStep | DynaJson/JsonParser.cs:76-149 | the value switch consumes input, opens at most one container and only below the depth limit; "Too deep nesting" names the open count, which equals the limit |
| JsonParser.AfterValueStep | DynaJson/JsonParser.cs:151-179 | the buffer goes back to the pool iff no container is open; at top level only the end of input succeeds, with the value |
| JsonParser.KeyStep | DynaJson/JsonParser.cs:181-192 | `GetKey` ends the object or reads a name and its colon, without changing the depth |
| JsonParser.Step | DynaJson/JsonParser.cs:66-194 | each turn advances the input or the phase and keeps the depth within the limit; success returns the buffer |
| JsonParser.Run | DynaJson/JsonParser.cs:66-194 | the loop terminates; success always returns the buffer; a returned buffer means success or an unexpected character at top level |
| JsonParser.ParseWithBuffer | DynaJson/JsonParser.cs:66-194 | the explicit-stack loop returns exactly the grammar's reading of the document; the buffer goes back to the pool iff one whole value was read at top level, which every success implies |
| JsonParser.Parse | DynaJson/JsonParser.cs:60-63 | the parser's result is the grammar's reading; every parsed tree nests no deeper than the limit and its dictionaries have unique keys; a "Too deep nesting" failure names the limit |
| JsonParser.Closes | DynaJson/JsonParser.cs:119-144 | corrected guard: `]` or `}` may close iff a container is open and the current one is of the closer's kind |
| JsonParser.ClosesAsWritten | DynaJson/JsonParser.cs:119-144 | the written guard passes iff one of the two closers would close under the corrected guard, that is inside any open container |
| JsonParser.ClosersExclusive | DynaJson/JsonParser.cs:119-144 | under the corrected guard each open container is ended by exactly one of `]` and `}` |
| JsonGrammar.ArraySound | DynaJson/JsonParser.cs:119-126 | closing an array whose items fit the limit gives a value that fits one level up |
| JsonGrammar.ObjectSound | DynaJson/JsonParser.cs:137-144 | the same for objects, with unique keys |
| JsonGrammar.ParseScalar | DynaJson/JsonParser.cs:78-107 | literals and strings consume exactly their lexeme; a number consumes a number lexeme and no longer text is one or one digit short of one; scalars have depth 0 |
| JsonGrammar.Literal | DynaJson/JsonParser.cs:91-103 | `null`/`true`/`false` succeed iff the whole word follows |
| JsonGrammar.ParseValue | DynaJson/JsonParser.cs:76-149 | reference reading of one value: results fit the depth limit and have unique keys; errors lie within the input |
| JsonGrammar.ParseElements | DynaJson/JsonParser.cs:108-126 | reference reading of array items: the result is an array that fits the limit |
| JsonGrammar.AfterItem | DynaJson/JsonParser.cs:161-172 | after an item comes `]` or a comma, else "Expecting ',' or ']'" |
| JsonGrammar.ParseKey | DynaJson/JsonParser.cs:181-192 | a member name is a decoded string followed by `:` |
| JsonGrammar.ParseMembers | DynaJson/JsonParser.cs:127-144 | reference reading of members: the result is an object that fits the limit with unique keys |
| JsonGrammar.MemberValue | DynaJson/JsonParser.cs:188-192 | the value after a name, which `Add` stores first-write-wins |
| JsonGrammar.AfterMember | DynaJson/JsonParser.cs:173-179 | after a member comes `}` or a comma, else "Expecting ',' or '}'" |
| JsonGrammar.AppendItemSound | DynaJson/JsonParser.cs:161-164 | adding a value that fits keeps the items within the limit |
| JsonGrammar.AddKeepsShape | DynaJson/JsonParser.cs:173-174 | adding a member keeps keys unique and the depth within the limit |
| JsonGrammar.ParseDocument | DynaJson/JsonParser.cs:60-194 | reference reading of a document: results fit the limit and have unique keys |
| JsonParser.ValueSim | DynaJson/JsonParser.cs:76-149 | from the value switch, the loop returns what the recursive reading of one value gives |
| JsonParser.ElementsSim | DynaJson/JsonParser.cs:108-172 | inside an array, the loop finishes the array as the recursive reading does |
| JsonParser.AfterItemSim | DynaJson/JsonParser.cs:161-172 | after an item, the loop continues as the reading of the rest of the array |
| JsonParser.MembersSim | DynaJson/JsonParser.cs:181-192 | at `GetKey`, the loop finishes the object as the recursive reading does |
| JsonParser.MemberValueSim | DynaJson/JsonParser.cs:188-192 | after a colon, the loop continues as the reading of the member's value and the rest |
| JsonParser.AfterMemberSim | DynaJson/JsonParser.cs:173-179 | after a member, the loop continues as the reading of the rest of the object |
| ParserExamples.EmptyInput | DynaJson.Test/ParseTest.cs:104-109 | empty input fails with an unexpected end at 0 |
| ParserExamples.EmptyInputMessage | DynaJson.Test/ParseTest.cs:104-109 | its message is "Unexpected end at 0" |
| ParserExamples.MisspelledNull | DynaJson.Test/ParseTest.cs:121 | `nula` fails expecting 'l' at 3 |
| ParserExamples.MisspelledNullMessage | DynaJson.Test/ParseTest.cs:121 | its message is "Expecting 'l' at 3" |
| ParserExamples.NestingLimit | DynaJson.Test/ParseTest.cs:251-259 | `[[]]` with limit 1 fails at 1 with one container open |
| ParserExamples.NestingLimitMessage | DynaJson.Test/ParseTest.cs:251-259 | its message is "Too deep nesting 2 at 1" |
| ParserExamples.TrailingCommaExample | DynaJson.Test/ParseTest.cs:40-44 | `[0,]` parses as `[0]` |
| ParserExamples.DoubleCommaExample | DynaJson.Test/ParseTest.cs:243-249 | `[1,,]` fails with an unexpected ',' at 3 |
| ParserExamples.MissingColonExample | DynaJson.Test/ParseTest.cs:181-186 | `{"at",1}` fails expecting ':' at 5 |
| ParserExamples.TrailingCharacterExample | DynaJson.Test/ParseTest.cs:170-179 | `1a` fails with an unexpected 'a' at 1 |
| ParserExamples.StrayCloserExample | DynaJson.Test/ParseTest.cs:271-281 | `]` at top level is an unexpected character at 0 |
| ParserExamples.RawControlExample | DynaJson.Test/ParseTest.cs:161-167 | a raw backspace inside a string is an unexpected character at 1 |
| ParserExamples.UnterminatedStringExample | DynaJson.Test/ParseTest.cs:153-159 | `"a` fails with an unexpected end at 2 |
| ParserExamples.OverlayGuardAdmitsMismatch | DynaJson/JsonParser.cs:119-144 | the closer guard as written admits a closer of the wrong kind exactly when the intended guard refuses it |
| ParserExamples.OverlayGuardOnMismatchedCloser | DynaJson/JsonParser.cs:137-144 | on `[}` the written guard passes at 1 inside an array |
| ParserExamples.MismatchedCloserRefused | DynaJson/JsonParser.cs:119-148 | with the intended guard, a wrong-kind closer is an unexpected character at its offset |
| ParserExamples.MismatchedCloserExample | DynaJson/JsonParser.cs:137-148 | `[}` fails with an unexpected '}' at 1 |
| NativeValues.Default | DynaJson/ReflectiveOperation.cs:282-285 | `default(T)` is null exactly for reference types: `false` for `bool`, `0` for `int`, `0.0` for `float` and `double`, the zero member for an enum, and the pair with both properties unset for `KeyValuePair` |
| NativeValues.ToValue | DynaJson/JsonObject.ConvertTo.cs:60-63 | a container becomes a `JsonObject` around the same node; a scalar becomes its primitive |
| NativeValues.Truncate | DynaJson/ReflectiveOperation.cs:220-226 | the `(int)` cast of a number truncates toward zero |
| NativeValues.TypeName | DynaJson/JsonObject.ConvertTo.cs:22-25 | `Type.Name`: an array type's name is its element's name followed by `[]`, and no other built-in type's name ends in `[]` |
| NativeValues.CastMessage | DynaJson/JsonObject.ConvertTo.cs:22-25 | the message is "Unable to cast value of type ", the tag, " to type '", the type name and a closing quote, each at its own offset |
| CastMessages.ArrayCastMessage | DynaJson.Test/ConvertTest.cs:184-197 | an Array cast to `bool` names Array and Boolean |
| CastMessages.ObjectCastMessage | DynaJson.Test/ConvertTest.cs:199-212 | an Object cast to `double[]` names Object and Double[] |
| CastMessages.MessageDeterminesPair | DynaJson/JsonObject.ConvertTo.cs:22-25 | with quote-free tags, equal cast messages name the same tag and type name |
| ReflectiveOperation.CreateSetterList | DynaJson/ReflectiveOperation.cs:147-176 | a setter for every writable property and only those, at most one per property |
| ReflectiveOperation.SetterKindOf | DynaJson/ReflectiveOperation.cs:157-174 | a property gets a compiled setter iff its type is none of `bool`, `int`, `float`, `double` and `string`; the number setter serves exactly the three numeric types |
| ReflectiveOperation.CastNumber | DynaJson/ReflectiveOperation.cs:220-226 | the number setter's cast: to `int` truncates toward zero, to `float` and `double` keeps the value |
| ReflectiveOperation.DirectValue | DynaJson/ReflectiveOperation.cs:269-280 | a direct setter takes the node's own bool or string when the type check passes; every failure is `ChangeType` failing on the node's loose value |
| ConvertToProperties.DirectSetterAgrees | DynaJson/ReflectiveOperation.cs:202-280 | for a scalar node, a direct setter assigns the same value, or fails the same way, as the general conversion to the property's type |
| ReflectiveOperation.GetterKindOf | DynaJson/ReflectiveOperation.cs:62-102 | the number getter serves exactly `int`, `float`, `double` and enums; the boxed getter every type but those and `bool` and `string` |
| ReflectiveOperation.SetterListConcat | DynaJson/ReflectiveOperation.cs:147-150 | the setter list keeps the property order |
| ReflectiveOperation.AllWritableSetters | DynaJson/ReflectiveOperation.cs:147-176 | when every property is writable, setter i is property i's, with the kind its type selects |
| ReflectiveOperation.CreateGetterList | DynaJson/ReflectiveOperation.cs:52-60 | a getter for every public property, in declaration order |
| ReflectiveOperation.InvokeGetter | DynaJson/ReflectiveOperation.cs:62-102 | typed getters write the node and return null; a null string leaves the node Null; other getters return the boxed value |
| ReflectiveOperation.NewInstance | DynaJson/ReflectiveOperation.cs:282-285 | value types start at their default, lists empty, classes only with a default constructor |
| ReflectiveOperation.ObjectCreator | DynaJson/ReflectiveOperation.cs:125-139 | `List<T>` records its element type and has no setters; any other type gets the setter list of its properties |
| ReflectiveOperation.CacheGet | DynaJson/ReflectiveOperation.cs:24-27 | for a pure operation, `Get(t)` is `operation(t)` and the cache stays coherent; at most one entry is added |
| ReflectiveOperation.CacheGetInsertsTwice | DynaJson/ReflectiveOperation.cs:24-27 | as written, the first two `Get`s of a new type each insert it; later ones hit |
| ReflectiveOperation.CacheGetFixed | DynaJson/ReflectiveOperation.cs:24-27 | `Get` over the corrected lookup, with the same contract |
| ReflectiveOperation.CacheGetFixedOnce | DynaJson/ReflectiveOperation.cs:24-27 | with the corrected lookup, a second `Get` of the same type changes nothing |
| ConvertTo.ConvertToIEnumerable | DynaJson/JsonObject.ConvertTo.cs:278-283 | an Array becomes a sequence of its items' loose values, in order; an Object becomes a dictionary of its members in order; a scalar is a null dereference |
| ConvertTo.ConvertScalar | DynaJson/JsonObject.ConvertTo.cs:65-119 | a scalar of the target's own JSON kind is taken directly; every failure is `ChangeType` failing on the node's loose value and the target |
| ConvertTo.ConvertValue | DynaJson/JsonObject.ConvertTo.cs:59-120 | reference conversion: `object` gives the loose value; an Array gives a collection of the target's element type and the Array's length; an Object to a class gives an instance of it; an invalid cast names Array for a non-collection target or Object for an array target |
| ConvertTo.ConvertItems | DynaJson/JsonObject.ConvertTo.cs:137-154 | converting the remaining items keeps the converted prefix and gives a collection of the full length |
| ConvertTo.ApplySetters | DynaJson/JsonObject.ConvertTo.cs:155-162 | the setter walk keeps the instance's type, and leaves it unchanged when no setter's name is a member |
| ConvertTo.FieldIndex | DynaJson/JsonObject.ConvertTo.cs:270-273 | where an instance holds a property, if anywhere |
| ConvertTo.SetField | DynaJson/JsonObject.ConvertTo.cs:270-273 | setting a property stores the value under its name and keeps the instance's type |
| ConvertTo.ConvertStep | DynaJson/JsonObject.ConvertTo.cs:59-120 | the `Convert` label leaves less work than it found |
| ConvertTo.StartArray | DynaJson/JsonObject.ConvertTo.cs:79-100 | starting an array or list leaves less work |
| ConvertTo.StartObject | DynaJson/JsonObject.ConvertTo.cs:101-110 | starting an object leaves less work |
| ConvertTo.ReturnStep | DynaJson/JsonObject.ConvertTo.cs:122-136 | `Return` with the stack empty ends the loop with the value |
| ConvertTo.AdvanceStep | DynaJson/JsonObject.ConvertTo.cs:137-162 | the `...Next` labels leave less work |
| ConvertTo.Step | DynaJson/JsonObject.ConvertTo.cs:53-163 | each turn of the machine decreases the remaining work, so it terminates |
| ConvertTo.ConvertSim | DynaJson/JsonObject.ConvertTo.cs:59-120 | from the `Convert` label, the machine returns what the recursive conversion gives |
| ConvertTo.ItemsSim | DynaJson/JsonObject.ConvertTo.cs:137-154 | from `ArrayNext`/`ListNext`, the machine finishes the collection as the recursive reading does |
| ConvertTo.SettersSim | DynaJson/JsonObject.ConvertTo.cs:155-162 | from `ObjectNext`, the machine finishes the object as the recursive setter walk does |
| ConvertTo.Convert | DynaJson/JsonObject.ConvertTo.cs:32-37 | the goto machine, entered with `IEnumerable` and the loose dictionary routed to `ConvertToIEnumerable`, returns exactly the reference conversion |
| ConvertToProperties.ItemsConvertInOrder | DynaJson/JsonObject.ConvertTo.cs:171-231 | collection conversion succeeds iff every item does, keeping the earlier items and appending item i's conversion at i |
| ConvertToProperties.ItemsFirstError | DynaJson/JsonObject.ConvertTo.cs:137-154 | a failing collection fails with the error of its first failing item |
| ConvertToProperties.ArrayConversion | DynaJson/JsonObject.ConvertTo.cs:79-100 | an Array converts only to `T[]` or `List<T>`, element by element in order; any other target is an invalid cast naming Array |
| ConvertToProperties.ArrayToCollection | DynaJson/JsonObject.ConvertTo.cs:79-100 | an Array to `T[]` or `List<T>`: same length, element i converted from item i, success iff every item converts |
| ConvertToProperties.ArrayCastError | DynaJson/JsonObject.ConvertTo.cs:79-82 | an Array to a non-collection type is an invalid cast |
| ConvertToProperties.ObjectToCollection | DynaJson/JsonObject.ConvertTo.cs:101-103 | an Object to `T[]` is an invalid cast naming Object; to `List<T>`, which has no setters, it is a null dereference |
| ConvertToProperties.ObjectToValueType | DynaJson/JsonObject.ConvertTo.cs:101-110 | an Object to a value type with no properties gives its default |
| ConvertToProperties.SetFieldLookup | DynaJson/JsonObject.ConvertTo.cs:270-273 | a set property reads back the value; other properties are unchanged |
| ConvertToProperties.SettersFill | DynaJson/JsonObject.ConvertTo.cs:233-274 | setters run in order; an object converts iff every setter whose name is present succeeds; each such property holds its setter's value and every other property keeps its default |
| ConvertToProperties.UnknownKeyIgnored | DynaJson/JsonObject.ConvertTo.cs:252-267 | a member no setter names does not affect the result |
| ConvertToProperties.NestedArrayExample | DynaJson.Test/ConvertTest.cs:76-80 | `[[0,1],[2,3]]` to `double[][]` keeps both levels in order |
| ConvertToProperties.PairArray | DynaJson/JsonObject.ConvertTo.cs:178-199 | a two-item array converts item by item |
| ConvertToProperties.CastErrorExamples | DynaJson.Test/ConvertTest.cs:184-212 | `[]` to `bool` and `{}` to `double[]` are invalid casts |
| ConvertToProperties.UserClassExample | DynaJson.Test/ConvertTest.cs:97-112 | `{"S":"a"}` to a class with a string property S sets S |
| ConvertToProperties.UserClassCreator | DynaJson/ReflectiveOperation.cs:125-139 | that class's creator has a direct string setter for S |
| ConvertToProperties.StringSetterExample | DynaJson/ReflectiveOperation.cs:241-253 | the direct string setter stores the string |
| ConvertToProperties.EmptyClassExample | DynaJson.Test/ConvertTest.cs:102-119 | a class with no properties ignores every member |
| ConvertToProperties.NullItemExample | DynaJson.Test/ConvertTest.cs:82-86 | `[null]` to `object[]` holds a null |
| ConvertToProperties.EnumerableExample | DynaJson.Test/ConvertTest.cs:136-144 | `[0,1]` as `IEnumerable` enumerates 0 and 1 |
| ConvertFrom.PropertyValue | DynaJson/ReflectiveOperation.cs:62-72 | a getter reads the instance's field of its name, or the type's default |
| ConvertFrom.ScalarNode | DynaJson/JsonObject.ConvertFrom.cs:33-75 | a scalar becomes a scalar node; null, `DBNull`, booleans, doubles and strings read back as themselves, and the other numbers become Numbers |
| ConvertFrom.FromNative | DynaJson/JsonObject.ConvertFrom.cs:26-100 | reference conversion: an enumerable becomes an Array with one node per element; any other object becomes an Object with unique keys holding every property's name |
| ConvertFrom.FromItems | DynaJson/JsonObject.ConvertFrom.cs:120-126 | one node per element |
| ConvertFrom.StoredNode | DynaJson/JsonObject.ConvertFrom.cs:184-204 | the node stored for a getter is the conversion of the property's value |
| ConvertFrom.GettersWalk | DynaJson/JsonObject.ConvertFrom.cs:184-204 | the getter walk keeps keys unique and the existing keys, adds every getter's name, and adds nothing else |
| ConvertFrom.ConvertStep | DynaJson/JsonObject.ConvertFrom.cs:32-100 | the `Convert` label always moves on and leaves less work |
| ConvertFrom.ReturnStep | DynaJson/JsonObject.ConvertFrom.cs:102-110 | `Return` ends the loop iff the stack is empty, with the node |
| ConvertFrom.AdvanceStep | DynaJson/JsonObject.ConvertFrom.cs:112-126 | the `...Next` labels leave less work |
| ConvertFrom.Step | DynaJson/JsonObject.ConvertFrom.cs:26-127 | each turn decreases the remaining work, so the walk terminates on a finite (acyclic) value; a cyclic graph is not expressible, see "## Left out" |
| ConvertFrom.FromSim | DynaJson/JsonObject.ConvertFrom.cs:32-100 | from the `Convert` label, the machine returns the recursive reading's node |
| ConvertFrom.ItemsSim | DynaJson/JsonObject.ConvertFrom.cs:120-126 | from `ArrayNext`, the machine finishes the array as the recursive reading does |
| ConvertFrom.GettersSim | DynaJson/JsonObject.ConvertFrom.cs:112-118 | from `ObjectNext`, the machine finishes the object as the getter walk does |
| ConvertFrom.Convert | DynaJson/JsonObject.ConvertFrom.cs:26-127 | the goto machine, started with the stack reset, returns exactly the reference conversion of any finite (acyclic) value |
| ConvertFromProperties.FromItemsElementwise | DynaJson/JsonObject.ConvertFrom.cs:139-165 | items convert one by one, in order |
| ConvertFromProperties.EnumerableToArray | DynaJson/JsonObject.ConvertFrom.cs:77-86 | an array, a list or another `IEnumerable` becomes an Array of its elements' nodes in enumeration order |
| ConvertFromProperties.GetterFastPathAgrees | DynaJson/JsonObject.ConvertFrom.cs:184-198 | the node a typed getter writes is the node its value converts to |
| ConvertFromProperties.GettersWalkMembers | DynaJson/JsonObject.ConvertFrom.cs:184-204 | getters with distinct names each append one member, in getter order |
| ConvertFromProperties.PropertyValueAt | DynaJson/ReflectiveOperation.cs:62-72 | with distinct names, a property reads the field in its own position |
| ConvertFromProperties.RecordToObject | DynaJson/JsonObject.ConvertFrom.cs:167-205 | any other object becomes an Object with one member per property, in declaration order and with unique keys; unset properties read their default, so a null reference gives Null |
| ConvertFromProperties.DictionaryToPairs | DynaJson/JsonObject.ConvertFrom.cs:77-86 | a `Dictionary<string,object>` is enumerated, giving an Array of `{"Key":...,"Value":...}` objects |
| ConvertFromProperties.WrappedIsItsTree | DynaJson/JsonObject.ConvertFrom.cs:87-91 | a `JsonObject` contributes its own node |
| ConvertFromProperties.LooseRoundTrip | DynaJson/JsonObject.ConvertFrom.cs:33-91 | converting a node's loose value back gives the node |
| ConvertFromExamples.NullsExample | DynaJson/JsonObject.ConvertFrom.cs:33-44 | `new object[] {null, DBNull.Value}` becomes an Array of two Nulls, the tree DynaJson.Test/SerializeTest.cs expects printed as `[null,null]` |
| ConvertFromExamples.IntArrayExample | DynaJson/JsonObject.ConvertFrom.cs:58-86 | `new[] {0, 1}` becomes the Array of Numbers 0 and 1 (printed `[0,1]` in the serializer test) |
| ConvertFromExamples.DoubleArrayBackExample | DynaJson.Test/ConvertTest.cs:128-134 | `[0,1]` converted to `double[]` is the array of 0 and 1 |
| ConvertFromExamples.AnonymousObjectExample | DynaJson/JsonObject.ConvertFrom.cs:167-205 | `new {a = 0, b = false}` becomes the Object with members a = 0 and b = false, in that order (printed `{"a":0,"b":false}` in the serializer test) |
| ConvertFromExamples.NullPropertiesExample | DynaJson/JsonObject.ConvertFrom.cs:184-198 | a fresh `A` with a string and an `A` property becomes the Object with S and Obj both Null (printed `{"S":null,"Obj":null}` in the serializer test) |
| ConvertFromExamples.EmptyObjectExample | DynaJson/JsonObject.ConvertFrom.cs:112-118 | `new {}` becomes the empty Object |
| ConvertFromExamples.PairDefaultExample | DynaJson/JsonObject.ConvertFrom.cs:184-198 | an unset `KeyValuePair<string, object>` property is an instance, converting to an Object with Key and Value both Null rather than to Null |
| ConvertFromExamples.JsonObjectExample | DynaJson/JsonObject.ConvertFrom.cs:87-91 | a wrapped tree converts to itself |
| RoundTrip.PlainRoundTrip | DynaJson/JsonObject.ConvertFrom.cs:26-127 | converting plain data to a tree and back to its own type gives the same value |
| RoundTrip.CollectionRoundTrip | DynaJson/JsonObject.ConvertTo.cs:171-231 | items that each come back give the whole array or list back |
| RoundTrip.RecordRoundTrip | DynaJson/JsonObject.ConvertTo.cs:233-274 | an instance of plain shape comes back from its Object when every property does |
| RoundTrip.ObjectToPlainRecord | DynaJson/JsonObject.ConvertTo.cs:233-274 | an Object with one member per writable property, in order, fills exactly those properties |
| RoundTrip.SettersRebuild | DynaJson/JsonObject.ConvertTo.cs:252-273 | running the setters in order rebuilds the fields in order |
| RoundTrip.DirectRoundTrip | DynaJson/ReflectiveOperation.cs:202-253 | a direct setter reads back the plain value its getter wrote |
| RoundTrip.LooseTreeRoundTrip | DynaJson/JsonObject.ConvertTo.cs:60-63 | every tree converts to `object` and back to itself |
| RoundTrip.EnumerableArrayRoundTrip | DynaJson/JsonObject.ConvertTo.cs:278-283 | an Array converted to `IEnumerable` converts back to the same Array |

## Left out

- Reading from a `TextReader` in blocks (`Setup`, `Consume`) is not modelled. The input is the whole text, and `Peek` gives 0 past its end as `_nextChar` does.
- `BufferPool`'s lock-free compare-and-swap list is not modelled. The model keeps only whether the parse returned its buffer: it does so exactly when the stack is empty.
- `JsonParser.Parse` ends with `JsonObject.ToValue(value)`. The model's `Parse` returns the tree itself; `NativeValues.ToValue` is that wrapping.
- Numbers are exact rationals. Rounding to `double` and NaN-boxing in `InternalObject` are not modelled.
- JsonLexer.GetNumber: the value it returns is not related to the digits by a proven contract. Only the consumed lexeme and the errors are specified, because double rounding is left out. The exponent is an unbounded integer here, while the source accumulates it in a 32-bit `int exp` that wraps silently: `1e4294967297` is read as `1e1` in the source.
- The float and int casts are modelled as `ReflectiveOperation.CastNumber` over `NativeValues.Truncate`. Overflow of `(int)` on large numbers is not modelled.
- The serializer, the shortest round-trip formatter (FastDtoa), `DynamicJson` and `JsonArray`/`JsonDictionary` hashing are not part of this model. The dictionary's behaviour is specified from its tests: `Add` is first-write-wins, the indexer overwrites, and enumeration follows insertion order. `Remove` and its tombstones are not modelled.
- `SerializeTest.SerializeDictionary` expects `{"a":0}` for a `Dictionary<string,int>`. It goes through the serializer, which is not part of this model. `ConvertFrom` itself enumerates a dictionary as key/value pairs (`ConvertFromProperties.DictionaryToPairs`).
- Compiling expression trees and calling delegates are modelled by their effect: the setter and getter kinds and `DirectValue`.
- `Convert.ChangeType`, default constructors and the property lists come from an oracle, `NativeValues.Reflection`. `Array.CreateInstance` and `Activator` are taken as always succeeding.
- Only the types the core distinguishes are modelled: `object`, `bool`, `int`, `float`, `double`, `string`, `IEnumerable`, `Dictionary<string,object>`, arrays, `List<T>`, enums, classes, the dictionary's key/value pair and `DBNull`. Other numeric type codes, `char` and `DateTime` are folded into these.
- User-defined structs are not modelled: `NativeValues.ClassType` stands for reference types, so its `default(T)` is null. `KeyValuePair<string, object>` is the one struct the core meets, and its default is an instance with both properties unset.
- The static stacks and the unsynchronised first use of the type caches from several threads are not modelled. Everything is single-threaded.
- RoundTrip.PlainRoundTrip: the round trip is proved for plain data only: no enums, no read-only properties, no null string or class-typed properties, and no cycles. The reasons differ:
  - Enums and read-only properties lose information in the source itself. An enum property is read as a number, and `Convert.ChangeType` from a double to an enum throws. A read-only property is never set back.
  - Null properties come back null in the source (`Convert.ChangeType(null, T)` is null for a reference type). They are excluded only because the `NativeValues.Reflection.changeType` oracle is left unconstrained on a null value.
  - On a cyclic graph, converting from .NET does not terminate (see the ConvertFrom.Convert line).
- ConvertFrom.Convert: values are finite trees (`NativeValues.Native` is an inductive datatype), so neither cyclic nor shared object graphs can be expressed. The source keeps no set of visited objects: an object whose property refers back to itself pushes contexts without end until memory runs out, so the source never returns a tree. The termination that ConvertFrom.Step proves rests on this abstraction.
- Stacks.Pop: requires a non-empty stack. On an empty stack the source reads index -1 and throws, and no caller does that.
- `{"a":}` is accepted as `{}`, as the code does: the loop-top `}` closes the object and drops the pending key.

## Findings

| source | as written | input that shows it | evidently intended | confidence | as-written member | corrected member |
|---|---|---|---|---|---|---|
| DynaJson/JsonParser.cs:34-39,120,138 | `Array` and `Dictionary` share one slot of the `Context` struct, so `context.Array == null` and `context.Dictionary == null` both pass inside any open container | `[}` (and `[1,}`, `{"a":]`) | a closer ends only a container of its own kind; `[}` fails with "Unexpected character '}' at 1" | not executed | ParserExamples.OverlayGuardOnMismatchedCloser | ParserExamples.MismatchedCloserRefused |
| DynaJson/TypeDictionary.cs:13-30 | `Insert` stores the pair at `_count` after incrementing it, while `TryGetValue` scans from `_count - 1` down | `Insert(t, v)` then `TryGetValue(t)` on a new type | lookup sees every inserted pair, starting at `_count`, so a cached type is found on the next `Get` | not executed | TypeDictionaries.NewestEntryInvisible | TypeDictionaries.FixedFindsNewest |

The parser loop uses the corrected guard (`JsonParser.Closes`). `ClosesAsWritten` is the written one, and `OverlayGuardAdmitsMismatch` shows the two differ exactly on mismatched closers.

The type cache keeps the lookup as written (`TypeDictionaries.TryGetValue` and `ReflectiveOperation.CacheGet`), because the written lookup is still correct: the missing hit costs one extra computation of a pure operation, and `CacheGetInsertsTwice` shows the second `Get` inserts the type again. `TryGetValueFixed` and `CacheGetFixed` are the intended versions, and `CacheGetFixedOnce` shows the cache then holds one entry per type.
