# API manager client — a Dafny model

The API manager is a WPF desktop client for a REST API in front of a
PostgreSQL database. Its window lets a user:

- look up table and view schemas;
- page through the rows of a table;
- read the rows whose column has a given value;
- call stored procedures and functions with an argument list it proposes.

This project models the two parts where that behaviour lives:

- **`ApiService`, the HTTP service.** It keeps two default headers: the
  Basic `Authorization` value and the `X-Database-Role` header. It checks
  each operation's arguments before it sends anything, and builds the path
  and query. It turns what the network did into the `(result, error
  message)` pair every operation returns, including the diagnostic text of
  a failed response.
- **`MainViewModel`, the window's state.** This covers:
  - the paging fields and the Next/Previous commands;
  - the setters that tie the schema selection to the query forms;
  - the routine selection and the example payload generated from a
    routine's argument signature;
  - how a routine call's answer is shown;
  - how a list of JSON values is flattened into a table.

The response and request records are datatypes. The mutable parts are
classes:

- `Services.ApiService` holds the header slots;
- `ViewModel.MainViewModel` holds the window's bound properties.

Their methods state the whole new state against specification functions,
and lemmas prove what those functions promise.

Modules, one per file:

| module | what it holds |
|---|---|
| `Wrappers` | `Option` and `Result`. |
| `Text` | The .NET string operations the client uses, the UTF-16 code units of a .NET `string`, and C# 32-bit `int`. |
| `Json` | JSON values as `JsonElement` exposes them: kinds, compact text, `TryGetInt64`. |
| `Records` | The data-transfer records of `Classes/`. |
| `Encoding` | `Encoding.ASCII`, Base64 (section 4 of RFC 4648) and `Uri.EscapeDataString`. |
| `ErrorFormat` | `ApiService.FormatError`. |
| `Services` | `ApiService`: headers, guards, requests, the query dictionary, the outcome of a request. |
| `Signature` | The argument-signature scanner of `GeneratePayload`. |
| `Payload` | The example values and the indented JSON text of `GeneratePayload`. |
| `Flattening` | `ConvertJsonElementsToDataTable` and `GetValueFromJsonElement`. |
| `ViewModel` | `MainViewModel`. |

Inputs the code reads from its environment are parameters of the model:

- **The network's answer** is `Services.Outcome`. It is either a response
  (status code and its name, reason phrase, body text and the JSON the
  body parses to), or one of the caught exceptions.
- **The clock** is `Payload.Clock`; `DateTime.Now` and `Now.AddDays(7)`
  are given.
- **GUIDs** come from a function from the parameter's position to the
  GUID text.
- **Serializers, encoders and one exception message** are passed in as
  parameters:
  - the typed JSON deserializer is `decode`;
  - the indented serializer of a routine result is `indent`;
  - the URL encoder of `QueryHelpers` is `encode`;
  - the message of the duplicate-column exception is `failure`.

## Model

| member | source | states |
|---|---|---|
| `Text.Wrap32` | MainViewModel.cs:252-253 | The result is the 32-bit value congruent to the input modulo 2^32, and equals the input when it fits. This is C#'s unchecked `int` addition in the Next command. |
| `Text.TrimStart` | MainViewModel.cs:306 | The result is a suffix of the input, the part dropped is white space, and the result does not start with white space. |
| `Text.TrimEnd` | MainViewModel.cs:306 | The result is a prefix of the input, the part dropped is white space, and the result does not end with white space. |
| `Text.Trim` | MainViewModel.cs:306 | The result is the slice of the input after its blank prefix and before a blank suffix. It neither starts nor ends with white space, and it is empty exactly when the input is blank. |
| `Text.TrimUnpadded` | MainViewModel.cs:306 | Trimming a string without surrounding white space leaves it unchanged. |
| `Text.ToUpper` | MainViewModel.cs:304 | Invariant upper-casing keeps the length and upper-cases each character in its place. |
| `Text.ToUpperIdempotent` | MainViewModel.cs:304-308 | Upper-casing twice is upper-casing once, so the OUT test is stable. |
| `Text.ToLower` | MainViewModel.cs:324-325 | Invariant lower-casing keeps the length and lower-cases each character in its place. |
| `Text.NatToString` | ApiService.cs:327-328 | The decimal text of a number is non-empty and made of digits. |
| `Text.PadLeft` | MainViewModel.cs:336 | The result reaches the requested width and never shortens. It ends with the input, and every character before it is the fill character. |
| `Text.CodeUnits` | ApiService.cs:51 | A character is one UTF-16 code unit, its code, up to U+FFFF, and beyond it a high and a low surrogate that combine back into the character. |
| `Text.Utf16` | ApiService.cs:51 | A string has at least as many UTF-16 units as characters, each below U+10000. It has exactly as many when every character lies in the Basic Multilingual Plane, and then each unit is the character's code. |
| `Json.KindOf` | MainViewModel.cs:462-470 | A value's kind is never `Undefined`. It is `Array`, `Object` or `Null` exactly for arrays, objects and null. |
| `Json.Quote` | ApiService.cs:108 | A string literal starts and ends with a double quote and holds no character the relaxed encoder escapes. Its inside reads back, by the string grammar of RFC 8259, as exactly the string. |
| `Json.Write` | ApiService.cs:108 | The JSON text of a value is never empty. A string, an array and an object start and end with their delimiters. |
| `Json.EscapeChar` | ApiService.cs:108 | A character inside a string is written as a non-empty text holding no character the relaxed encoder escapes: no control (U+0000-U+001F, U+007F-U+009F), no space separator other than U+0020, no line or paragraph separator, no private-use character and nothing beyond U+FFFF. A character is written as itself exactly when it is none of these and neither the quote nor the backslash. With `Json.UnescapeChar`, it reads back as that character. |
| `Json.HexEscape` | ApiService.cs:108 | A `\uXXXX` escape is six characters: a backslash, 'u' and four hexadecimal digits. |
| `Json.PairEscape` | ApiService.cs:108 | A character beyond U+FFFF is written as twelve characters, the escapes of its two surrogates. |
| `Json.Escape` | ApiService.cs:108 | An escaped string holds no character the relaxed encoder escapes. |
| `Json.EncoderEscapesBmp` | ApiService.cs:108 | DEL, the no-break space and a private-use character are written as `\u007F`, `\u00A0` and `\uE000`. |
| `Json.EncoderEscapesPair` | ApiService.cs:108 | U+1F600 is written as its surrogate pair, `\uD83D\uDE00`. |
| `Json.HexEscapeRead` | ApiService.cs:108 | A `\uXXXX` escape reads back as its code unit, and reading goes on after its six characters. |
| `Json.UnescapeUnit` | ApiService.cs:108 | An escaped code unit outside the surrogates reads back as its character. |
| `Json.UnescapePair` | ApiService.cs:108 | An escaped high surrogate followed by an escaped low surrogate reads back as the character the pair encodes. |
| `Json.UnescapeChar` | ApiService.cs:108 | Reading one escaped character, whichever of the escapes it takes, gives that character back and continues with what follows. |
| `Json.EscapeRoundTrip` | ApiService.cs:108 | Reading an escaped string gives the string back, so distinct strings are written differently. |
| `Json.LastValue` | ApiService.cs:100-101 | The dictionary lookup finds a value exactly when some property has that exact name, and the value belongs to such a property. |
| `Json.TryGetInt64` | MainViewModel.cs:853 | A success lies within the range of `long`. `Json.IntegerLiteralRead` gives the exact condition on the integers JSON can spell. |
| `Json.NotInt64` | MainViewModel.cs:853-855 | A literal with a non-digit after the optional sign (a fraction or an exponent) is not read as a `long`. |
| `Json.Int64RoundTrip` | MainViewModel.cs:853 | Every `long` written in decimal reads back as itself. |
| `Json.DigitsSpellValue` | MainViewModel.cs:853 | Digits without a leading zero are the decimal spelling of their value. |
| `Json.SpellsValue` | MainViewModel.cs:853 | A number in JSON's integer form spells exactly one integer: its value. |
| `Json.IntegerLiteralRead` | MainViewModel.cs:853 | For a number in JSON's integer form, `TryGetInt64` yields `n` exactly when `n` fits a `long` and the text is `n` in decimal, or "-0" for zero. |
| `Encoding.AsciiBytes` | ApiService.cs:51 | `Encoding.ASCII.GetBytes` gives one byte below U+0080 per UTF-16 code unit: the unit itself when it is ASCII, '?' otherwise. Text in the Basic Multilingual Plane keeps its length and its ASCII characters. |
| `Encoding.AsciiOfSupplementary` | ApiService.cs:51 | A character beyond U+FFFF gives two '?' bytes, one per surrogate. |
| `Encoding.AsciiText` | ApiService.cs:51 | ASCII bytes read back as characters of the same length. |
| `Encoding.AsciiRoundTrip` | ApiService.cs:51 | For ASCII text, decoding the ASCII bytes gives the text back. |
| `Encoding.AsciiLosesLetters` | ApiService.cs:51 | Two different Cyrillic passwords of the same length give the same bytes. |
| `Encoding.Digit64` | ApiService.cs:53 | Every six-bit value maps to a character of the Base64 alphabet. |
| `Encoding.Value64` | ApiService.cs:53 | Every alphabet character has a six-bit value. |
| `Encoding.Sextets` | ApiService.cs:53 | The groups of `Convert.ToBase64String` hold six-bit values or padding. |
| `Encoding.Char64` | ApiService.cs:53 | Every output character is an alphabet character or '='. |
| `Encoding.Base64` | ApiService.cs:53 | The Base64 text holds only alphabet characters and '='. |
| `Encoding.Unchar` | ApiService.cs:53 | Decoding a character gives a six-bit value, the padding mark, or -1 for a character outside the alphabet. |
| `Encoding.Unchars` | ApiService.cs:53 | The text is read character by character. |
| `Encoding.SextetsRoundTrip` | ApiService.cs:53 | Decoding the groups gives back the bytes, for every byte sequence. |
| `Encoding.Base64RoundTrip` | ApiService.cs:53 | Base64 decoding undoes `Convert.ToBase64String` for every byte sequence. |
| `Encoding.Base64Length` | ApiService.cs:53 | The encoding has four characters per started group of three bytes. |
| `Encoding.Utf8` | ApiService.cs:148 | A character's UTF-8 form has 1 to 4 bytes, and 1 exactly for ASCII. |
| `Encoding.HexDigit` | ApiService.cs:148 | Percent-escapes use upper-case hexadecimal digits. |
| `Encoding.PercentEncode` | ApiService.cs:148 | Every byte becomes three characters: '%' and two hexadecimal digits. |
| `Encoding.EscapeDataString` | ApiService.cs:148 | The escaped name is at least as long as the name and holds only unreserved characters and '%'. |
| `Encoding.EscapedHasNoDelimiter` | ApiService.cs:308 | An escaped name never holds '/', '?' or '#'. |
| `Encoding.EscapeKeepsUnreserved` | ApiService.cs:360 | A name of unreserved characters is put into the path unchanged. |
| `ErrorFormat.Truncated` | ApiService.cs:120-123 | A body of at most 500 characters is kept whole. A longer one becomes its first 500 characters followed by "...". |
| `ErrorFormat.LastMatching` | ApiService.cs:88 | The case-insensitive property match finds the value of a matching property, or states that no property matches. |
| `ErrorFormat.EntryOf` | ApiService.cs:88 | A validation entry is null exactly when its JSON is null. |
| `ErrorFormat.ParseWrapper` | ApiService.cs:88 | The typed parse throws exactly when the document does not fit `FastApiValidationErrorWrapper`. |
| `ErrorFormat.LocText` | ApiService.cs:93 | A missing or empty `loc` gives "Н/Д". The text is null exactly when some `loc` item is null, because `ToString` on it throws. |
| `ErrorFormat.ValidationLines` | ApiService.cs:91-95 | There is one line per entry, in order. The lines fail exactly when an entry or a `loc` item is null. |
| `ErrorFormat.MessageStartsWithHead` | ApiService.cs:80 | Every message starts with "Ошибка: {status} - {reason}.". |
| `ErrorFormat.BlankBody` | ApiService.cs:81-84 | A white-space body gives the head line and the empty-body note. |
| `ErrorFormat.RawTextBranch` | ApiService.cs:118-125 | A non-blank body that is not JSON, or JSON whose root is neither an object nor null, is shown as raw text cut at 500 characters. |
| `ErrorFormat.StringDetailUnreachable` | ApiService.cs:88-105 | When the typed parse accepts a document, its exact "detail" is null or an array, never a string. |
| `ErrorFormat.StringDetailShownRaw` | ApiService.cs:103-105 | FastAPI's plain `{"detail": "text"}` is therefore shown as raw text, not as "Детали: text". |
| `ErrorFormat.ValidationBranch` | ApiService.cs:89-97 | A non-empty list of well-formed entries gives the head, "Детали валидации:" and one line per entry. |
| `ErrorFormat.ValidationWins` | ApiService.cs:89-116 | Once the validation list is non-empty, no later branch is taken. |
| `ErrorFormat.CapitalisedEmptyDetail` | ApiService.cs:100-116 | An empty list under "Detail" is matched by the typed parse but missed by the exact dictionary lookup, so the document is re-serialized. |
| `ErrorFormat.NullEntryFails` | ApiService.cs:91-94 | A null validation entry makes `FormatError` dereference null. |
| `Flattening.CellOf` | MainViewModel.cs:846-868 | Null becomes `DBNull`, a string its text, a boolean itself, and an array or object its JSON text. A number is a `long` exactly when `TryGetInt64` reads it, with that value, and otherwise keeps its literal. |
| `Flattening.Store` | MainViewModel.cs:811 | The string-typed "Value" column converts what it stores to text and keeps `DBNull`. Object columns store the value unchanged. |
| `Flattening.Names` | MainViewModel.cs:803-807 | The names are the first object's property names, in order. |
| `Flattening.DefaultIndexOf` | MainViewModel.cs:806 | The default name "Column{k}" carries the index `k`. |
| `Flattening.AssignName` | MainViewModel.cs:806 | A column added with an empty name gets the first "Column{j}", from the counter on, that no column has. Every earlier index is taken. |
| `Flattening.AddColumn` | MainViewModel.cs:806 | `Columns.Add` throws exactly on a non-empty name already present. Otherwise it appends one new, non-empty name: the name itself, or a default name from the counter on for an empty name. |
| `Flattening.AddNames` | MainViewModel.cs:803-807 | When the additions succeed, the columns are distinct and non-empty, one per name, and each non-empty name is kept as it is. |
| `Flattening.AddNamesNonEmpty` | MainViewModel.cs:803-807 | Without empty names, the additions succeed exactly when the names are distinct, and the columns are then the names. |
| `Flattening.AddNamesPrefix` | MainViewModel.cs:803-807 | If all additions succeed, so does every prefix of them. |
| `Flattening.EmptyNameIsColumn1` | MainViewModel.cs:806 | A first object `{"": 1}` gives the one column "Column1". |
| `Flattening.Column1AfterEmptyName` | MainViewModel.cs:806 | A first object `{"": 1, "Column1": 2}` makes the table throw. |
| `Flattening.EmptyNameSkipsTaken` | MainViewModel.cs:806 | A first object `{"Column1": 1, "": 2}` gives the columns "Column1" and "Column2". |
| `Flattening.ColumnsOf` | MainViewModel.cs:800-812 | An object fixes one distinct, non-empty column per property, named as the property unless that name is empty. Anything else fixes the single "Value" column. |
| `Flattening.BlankRow` | MainViewModel.cs:816 | A new row has every column, all `DBNull`. |
| `Flattening.WriteProperties` | MainViewModel.cs:819-832 | Only properties naming a column are written, and no key is added. |
| `Flattening.Flatten` | MainViewModel.cs:792-844 | A null or empty list gives an empty table. Otherwise there is one row per element and the first element fixes the columns. |
| `Flattening.AddColumns` | MainViewModel.cs:803-807 | The column loop adds the first object's names one by one, with the collection's default-name counter, and ends with the columns `AddNames` gives. |
| `Flattening.FillObjectRow` | MainViewModel.cs:819-832 | The property loop writes the object's properties into a blank row. |
| `Flattening.ConvertJsonElementsToDataTable` | MainViewModel.cs:792-844 | The loops build exactly the table `Flatten` describes. |
| `Flattening.RowKeys` | MainViewModel.cs:814-842 | Every row has exactly the table's columns as keys. |
| `Flattening.ObjectCell` | MainViewModel.cs:819-832 | A column's cell holds the last property of that name, or stays `DBNull`. |
| `Flattening.FlattenedObjectCell` | MainViewModel.cs:814-842 | In the flattened table, an object's cell is its last value under that column's name. |
| `Flattening.FlattenedScalarCell` | MainViewModel.cs:834-840 | When the first element is not an object, the table has the one column "Value", and a non-object element's row holds its cell converted to text. |
| `Flattening.LongCell` | MainViewModel.cs:853 | A number that fits a `long` is stored as that `long`. |
| `Flattening.FractionCell` | MainViewModel.cs:853-855 | A number with a fraction or an exponent is not stored as a `long`. |
| `Signature.Segments` | MainViewModel.cs:297 | The comma-delimited pieces are at least one, and none holds a comma. |
| `Signature.NameEnd` | MainViewModel.cs:297 | `[a-zA-Z0-9_]+` is greedy: the run ends at the first non-name character. |
| `Signature.SpaceEnd` | MainViewModel.cs:297 | `\s+` is greedy: the run ends at the first non-space character. |
| `Signature.KeywordEnd` | MainViewModel.cs:297 | The direction group, when found, is followed by white space. |
| `Signature.MatchRest` | MainViewModel.cs:297 | A match has a non-empty name of name characters and a non-empty type. |
| `Signature.MatchAt` | MainViewModel.cs:297 | The direction is empty or, upper-cased, one of IN, OUT, INOUT. |
| `Signature.FirstMatch` | MainViewModel.cs:298 | The leftmost match within a piece has a non-empty name and type. |
| `Signature.MatchesOf` | MainViewModel.cs:298 | There is at most one match per piece. |
| `Signature.Matches` | MainViewModel.cs:298 | There are at most as many matches as comma-delimited pieces. |
| `Signature.KeptOne` | MainViewModel.cs:304-311 | One match contributes at most one parameter. |
| `Signature.Kept` | MainViewModel.cs:300-313 | The filter keeps at most as many parameters as there are matches. |
| `Signature.KeptPrefix` | MainViewModel.cs:300-313 | One more match extends the kept list by that match's part. |
| `Signature.AllDefinitions` | MainViewModel.cs:305-306 | Each match's definition is its name and trimmed type, in order. |
| `Signature.KeptAll` | MainViewModel.cs:304-311 | Without OUT matches, every match is kept, in order, with its type trimmed. |
| `Signature.KeptNoneOut` | MainViewModel.cs:308 | OUT matches add nothing. |
| `Signature.SegmentsJoin` | MainViewModel.cs:297 | Joining the pieces with commas gives the signature back. |
| `Signature.SegmentsOfJoin` | MainViewModel.cs:297 | Comma-free parts joined with commas split back into those parts. |
| `Signature.PlainSegment` | MainViewModel.cs:297 | In a piece of blank text, a name that is not a keyword, white space and a type, the match has no direction, that name and that type. |
| `Signature.DirectedSegment` | MainViewModel.cs:297 | A piece with a direction keyword gives the match with that direction, name and type. |
| `Signature.MatchesOfParams` | MainViewModel.cs:293-295 | A declaration is expected to give the match of its own direction, name and type. |
| `Signature.RenderedSegment` | MainViewModel.cs:293-295 | A declaration written "[DIR ]name type" after blank text is matched as written. |
| `Signature.RenderedCommaFree` | MainViewModel.cs:297 | A declaration holds no comma. |
| `Signature.MatchesOfRendered` | MainViewModel.cs:293-298 | Scanning declarations separated by ", " finds each of them, in order. |
| `Signature.KeptOneDeclared` | MainViewModel.cs:304-311 | A declaration is kept exactly when its direction is not OUT. |
| `Signature.DeclaredSnoc` | MainViewModel.cs:300-313 | The declared list can also be built from the back, matching the loop. |
| `Signature.KeptDeclared` | MainViewModel.cs:300-313 | For declarations whose types carry no surrounding white space, the filter keeps exactly the non-OUT ones, in order, with their types. |
| `Signature.DefinitionsOfRendered` | MainViewModel.cs:293-313 | A signature written as declarations yields exactly its non-OUT parameters with their types. |
| `Payload.TwoDigits` | MainViewModel.cs:336 | A field is at least two characters. Below 100 it is exactly two digits that read back as the number. |
| `Payload.PaddedNumber` | MainViewModel.cs:336 | A number of at most `width` digits, zero-padded to `width`, takes exactly `width` digits and reads back as itself. |
| `Payload.FormatDate` | MainViewModel.cs:336 | For a year below 10000, "yyyy-MM-dd" is ten characters: four digits reading back as the year, '-', two digits for the month, '-', two digits for the day. |
| `Payload.FormatDateTime` | MainViewModel.cs:338 | "yyyy-MM-ddTHH:mm:ss" is the date, 'T', then two digits each for hour, minute and second separated by ':'; each field reads back as its number. |
| `Payload.Indented` | MainViewModel.cs:395-403 | The indented text is "[]" exactly for the empty list. |
| `Payload.ElementTexts` | MainViewModel.cs:395-403 | Element `i` of the payload is written as the compact JSON text of example value `i`. |
| `Payload.ElementLines` | MainViewModel.cs:395-403 | Each element line is two spaces and the element's text, with a comma on every line but the last. |
| `Payload.WrittenExamplePrintable` | MainViewModel.cs:395-403 | No example value's JSON text holds a character below U+0020, so none holds a line break. |
| `Payload.IndentedLines` | MainViewModel.cs:395-403 | A non-empty payload is "[", then one line per example value in order, then "]", joined by Windows line breaks. No element line holds a line break. |
| `Payload.ExampleValues` | MainViewModel.cs:321-393 | There is one example per parameter, in order, each from its own GUID. |
| `Payload.PayloadEmpty` | MainViewModel.cs:286-319 | The payload is "[]" exactly when the signature is blank or yields no parameter. |
| `Payload.PayloadOfRendered` | MainViewModel.cs:284-409 | A signature written as declarations gets the indented list of one example per non-OUT parameter. |
| `Payload.DeclaredNonEmpty` | MainViewModel.cs:308-311 | A non-OUT declaration makes the parameter list non-empty. |
| `Payload.RenderedNotBlank` | MainViewModel.cs:286 | A signature with a declaration is not blank. |
| `Payload.NameWins` | MainViewModel.cs:350-357 | A name mentioning "name" gets a name example whatever the type: "John" for "first", else "Doe" for "last", else "M" for "middle", else "username" for "user", else "Default Name". |
| `Payload.IntegerFirst` | MainViewModel.cs:329-330 | A type mentioning "int" gets 0 before any later type test. |
| `Payload.IntervalIsInteger` | MainViewModel.cs:329-330 | "interval" and "point" contain "int", so they get 0 too. |
| `Payload.IntegerId` | MainViewModel.cs:373-375 | An identifier of an integer type gets 1 unless an earlier name rule applies. |
| `Payload.PlainPasswordShadowed` | MainViewModel.cs:362-384 | The "p_plain_password" rule is never reached: such a name gets a name or password example, never "SecurePassword123!". |
| `Payload.PasswordInPlainPassword` | MainViewModel.cs:362-384 | A name containing "p_plain_password" contains "password". |
| `Payload.StrRuleIsNoOp` | MainViewModel.cs:385-389 | The "_str" rule never changes the value, because names containing "date" were handled earlier. |
| `Payload.PlainDateName` | MainViewModel.cs:364-372 | A date name with no qualifier follows its type: a date for type "date", a timestamp otherwise. |
| `Payload.IndentedShape` | MainViewModel.cs:398-403 | A non-empty list starts with "[", a Windows line break and two spaces of indentation, and ends with a line break and "]". |
| `Services.SplitAtColon` | ApiService.cs:51 | The split is at the first ':'; without a colon there is no split. |
| `Services.SplitJoined` | ApiService.cs:51 | "user:password" splits back into the user and the password when the user has no colon. |
| `Services.CredentialsRoundTrip` | ApiService.cs:42-56 | ASCII credentials with a colon-free user are read back from the header exactly as set. |
| `Services.NonAsciiPasswordsCollide` | ApiService.cs:51-53 | Two different Cyrillic passwords give the same `Authorization` header. |
| `Services.RoleValues` | ApiService.cs:64-76 | The role header holds at most one value, and none exactly for a null or blank role. |
| `Services.ApiService.constructor` | ApiService.cs:20-40 | The base URL is the given one when non-empty, else the default. No credentials and no role are set. |
| `Services.ApiService.SetCredentials` | ApiService.cs:42-56 | A blank user or password clears the header. Otherwise the header is "Basic " plus the Base64 of the ASCII bytes of "user:password". |
| `Services.ApiService.ClearCredentials` | ApiService.cs:58-62 | The header is cleared and nothing else changes. |
| `Services.ApiService.SetDatabaseRoleHeader` | ApiService.cs:64-76 | The old values are removed, and a non-blank role becomes the single value. |
| `Services.ApiService.RoleHeader` | ApiService.cs:18 | The header is sent exactly when a value is held. |
| `Services.Complete` | ApiService.cs:162-239 | There is never a result and an error together, and no error occurs exactly when the status is 2xx and the body deserializes. A success yields the deserialized value. A failed parse or deserialization yields its message as an unexpected error. An error status yields the `FormatError` text, or the null-reference message when the formatter throws. Network failure, time-out, cancellation and other exceptions each yield their own message. |
| `Services.ErrorKinds` | ApiService.cs:162-239 | Every error is one of five kinds, told apart by its first words: a formatted status, a network error, a timeout, a cancellation, or an unexpected exception. |
| `Services.ErrorsNotEmpty` | ApiService.cs:162-239 | No error message is empty. |
| `Services.GetTableOrViewSchemaAsync` | ApiService.cs:143-150 | A blank name gets its message and no request. Otherwise the request is a GET of "/schema/table/{escaped}", the schema is the answer's result, and the message is the answer's error or "". |
| `Services.RoutineSegment` | ApiService.cs:292-306 | "процедура"/"procedure" and "функция"/"function" are accepted in any case. Nothing else is. |
| `Services.CallRoutineAsync` | ApiService.cs:286-312 | A blank name, then an unknown kind, is refused without a request. Otherwise one POST is sent with the payload or empty arguments. The response is the answer's result or an empty response, and the message is the answer's error or "". An error always comes with an empty response. |
| `Services.FailedCallGivesEmptyResponse` | ApiService.cs:310-311 | A failed call returns the empty response together with its non-empty message. |
| `Services.ReadItemsByColumnValueAsync` | ApiService.cs:349-363 | The table name is checked before the column. A null value is sent as "". The three parts are escaped into "/{t}/column/{c}/{v}". The list is the answer's list or an empty one, and the message is the answer's error or "". |
| `Services.ColumnPathSegments` | ApiService.cs:360 | Whatever the names hold, the path has exactly the four '/' of its template. |
| `Services.Keys` | ApiService.cs:325-343 | The keys of the dictionary, in insertion order. |
| `Services.IndexOfKey` | ApiService.cs:340 | Finds the position of a key, or states that it is absent. |
| `Services.Assign` | ApiService.cs:331-340 | The indexer keeps an existing key in place and appends a new one. |
| `Services.AssignLookup` | ApiService.cs:331-340 | After the indexer writes a key, that key maps to the value, every other key keeps its value, and keys stay distinct. |
| `Services.AssignOptionFacts` | ApiService.cs:331-332 | A conditional write keeps the keys distinct and the earlier keys in place. It sets the key only for a non-blank option. |
| `Services.InitialParamsLookup` | ApiService.cs:325-332 | Before the filters, "limit" and "offset" hold their decimal text, and "sort_by" and "fields" hold the non-blank options. |
| `Services.FiltersKeepKeys` | ApiService.cs:334-343 | Filters keep keys distinct and only ever add keys at the end. |
| `Services.FiltersLookup` | ApiService.cs:334-343 | A key holds the last applicable filter written for it, else its earlier value. |
| `Services.QueryParamsMeaning` | ApiService.cs:325-343 | "limit" and "offset" come first, keys are distinct, and each key holds its last filter, else its option. |
| `Services.FirstIndexOf` | ApiService.cs:344 | The first occurrence of a character, or its absence. |
| `Services.ReadItemsAsync` | ApiService.cs:314-347 | A blank name is refused without a request. Otherwise the loop builds the query dictionary `QueryParams` describes, and one GET is sent for it. |
| `Services.ReadItemsUri` | ApiService.cs:344 | The query follows the escaped name after a '?'. |
| `ViewModel.StoredLimit` | MainViewModel.cs:94-99 | The stored limit is at least 1 and equals the value exactly when the value is positive. |
| `ViewModel.StoredOffset` | MainViewModel.cs:101-106 | The stored offset is non-negative and equals the value exactly when the value is non-negative. |
| `ViewModel.NextOffset` | MainViewModel.cs:252 | The next offset is the sum when it fits an `int`. A wrapped sum is stored as 0. |
| `ViewModel.PreviousOffset` | MainViewModel.cs:254 | The previous offset is `max(0, offset - limit)` and never above the offset. |
| `ViewModel.CollectDefinitions` | MainViewModel.cs:300-313 | The loop collects exactly what `Kept` describes. |
| `ViewModel.CollectExamples` | MainViewModel.cs:321-393 | The loop collects exactly one example per parameter, as `ExampleValues` describes. |
| `ViewModel.BuildPayload` | MainViewModel.cs:284-409 | The generator's text is `PayloadText` of the signature. |
| `ViewModel.ExamplePayload` | MainViewModel.cs:263-282 | A missing or blank signature gives "[]". |
| `ViewModel.MainViewModel.constructor` | MainViewModel.cs:217-261 | The limit starts at 10 and the offset and total at 0. There is no table and no routine. The arguments box holds "[]". |
| `ViewModel.MainViewModel.SetDataQueryLimit` | MainViewModel.cs:94-99 | The limit stored is `StoredLimit`, and the invariant is kept. |
| `ViewModel.MainViewModel.SetDataQueryOffset` | MainViewModel.cs:101-106 | The offset stored is `StoredOffset`, and the invariant is kept. |
| `ViewModel.MainViewModel.NextPage` | MainViewModel.cs:252 | The offset moves to `NextOffset` through the setter. |
| `ViewModel.MainViewModel.PreviousPage` | MainViewModel.cs:254 | The offset moves to `PreviousOffset`. |
| `ViewModel.MainViewModel.SetSelectedTableNameForSchema` | MainViewModel.cs:41-56 | The name is stored. A non-blank name also fills both query forms; a blank one leaves them alone. |
| `ViewModel.MainViewModel.ReadData` | MainViewModel.cs:719-759 | A blank table name clears the table and total. A page with data stores its total, offset, limit and flattened table. A failure clears the table and total. |
| `ViewModel.MainViewModel.GeneratePayload` | MainViewModel.cs:284-409 | The arguments box receives `PayloadText` of the signature. |
| `ViewModel.MainViewModel.GenerateExamplePayloadForProcedure` | MainViewModel.cs:263-272 | A null procedure or signature gives "[]". Otherwise the generated payload is used. |
| `ViewModel.MainViewModel.GenerateExamplePayloadForFunction` | MainViewModel.cs:273-282 | A null function or signature gives "[]". Otherwise the generated payload is used. |
| `ViewModel.MainViewModel.SetSelectedRoutineItem` | MainViewModel.cs:170-198 | Re-selecting the same item changes nothing. A new item clears the result and sets the name and example payload of a procedure or function; anything else resets them. |
| `ViewModel.MainViewModel.CallSelectedRoutine` | MainViewModel.cs:411-517 | No selection or a blank name gives "No routine selected.". Otherwise the text and table are those `CallView` gives for the answer. |
| `ViewModel.NextGuardMeaning` | MainViewModel.cs:252-253 | Without overflow, Next is enabled exactly when a table is shown and `offset + limit < total`, and then the next offset is below the total. |
| `ViewModel.NextGuardWraps` | MainViewModel.cs:252-253 | With a limit of `int.MaxValue`, Next is enabled although the true sum exceeds the total, and the offset becomes 0. |
| `ViewModel.PreviousUndoesNext` | MainViewModel.cs:252-255 | Without overflow, Previous undoes Next. |
| `ViewModel.PreviousMovesBack` | MainViewModel.cs:254-255 | Whenever Previous is enabled, it moves the offset back. |
| `ViewModel.TableOnlyFromTableFunctions` | MainViewModel.cs:462-494 | A table appears only for a function whose return type announces rows and which answered with an array. The table is then that array flattened. |
| `ViewModel.NonArrayForTable` | MainViewModel.cs:484-488 | A table function answering with a non-null non-array gets the "Expected array" text. |
| `ViewModel.ProceduresNeverTable` | MainViewModel.cs:465 | A procedure's answer is never shown as a table. |
| `ViewModel.TableTypeIgnoresCase` | MainViewModel.cs:466-468 | The return-type test ignores letter case. |
| `ViewModel.NoReturnTypeNoTable` | MainViewModel.cs:466-468 | A function without a precise return type is never shown as a table. |
| `ViewModel.ExamplePayloadEmpty` | MainViewModel.cs:263-319 | The example is "[]" exactly when the signature is missing, blank or yields no parameter. |
| `ViewModel.KindWordAccepted` | MainViewModel.cs:421 | The kind word the window sends is always accepted by the service and mapped to the right segment. |
| `ViewModel.FailedCallShownAsExecuted` | MainViewModel.cs:457-516 | As written, a failed call shows "Routine executed. No specific result data or status returned.", and the error message is dropped. |
| `ViewModel.PairView` | MainViewModel.cs:459-516 | A non-empty message is read as the failure; an empty one shows the response as usual. |
| `ViewModel.FailedCallShowsError` | MainViewModel.cs:511-516 | Read that way, a failed call shows "Error: " and the service's message. |

## Left out

- **Async I/O.** `HttpClient` I/O, `async`/`await`, `BaseAddress`,
  `Timeout` and the `Accept` header are not modelled. Each request is
  represented by the request value sent and the `Outcome` received.
- **JSON text parsing.** The model receives the parsed document, or the
  parser's message, alongside the body text. `JsonSerializer.Deserialize<T>`
  of a success body is the parameter `decode`.
- **Indented serialization and URL encoding.** The indented serializer of
  routine results is the parameter `indent`. The URL encoder of
  `QueryHelpers.AddQueryString` is the parameter `encode`.
- **Floating point.** A number that is not a `long` is kept as
  `OtherNumber` rather than parsed as a `double`. The example value `0.0` is
  its own constructor.
- **Culture.** Only the invariant formats are modelled. `ToUpperInvariant`
  and `ToLowerInvariant` are modelled for ASCII and Cyrillic letters only;
  other characters keep their case.
- **The 500-character cut.** It counts Unicode scalar values, not UTF-16
  code units.
- **`ConvertJsonElementsToDataTable` details:**
  - Columns are matched by exact name. `DataColumnCollection.Contains`
    also finds a name that differs only in letter case. The
    default-name counter also skips such names. Both are not modelled.
  - The duplicate-column exception of a first object is the precondition
    `Acceptable`. In a routine result it is the error branch, with its
    message given as `failure`.
  - The column type, and how `DataRow` boxes values, are not modelled.
- CellOf: an array or object cell holds `Json.Write` of the value, which
  is not `GetRawText()`. `GetRawText()` returns the element's original text.
  That text can differ in white space and in how numbers and escapes are
  spelled.
- Write: it writes values compactly, with the escapes of
  `UnsafeRelaxedJsonEscaping`. The encoder also escapes the code points
  Unicode leaves unassigned; that needs the Unicode character database,
  which is not modelled, so an unassigned character is written as itself.
  Where the source shows an element's raw text, the original spacing and
  number spelling are not reproduced.
- **SetSelectedRoutineItem.** `SetProperty` (MainViewModel.cs:550) uses
  `Equals(storage, value)`. `ProcedureInfo` and `FunctionInfo` are plain
  classes without an `Equals` override, so every item is compared by
  reference. The model compares items by value. Re-selecting an equal
  item from a reloaded list therefore regenerates the payload in the
  source but changes nothing in the model.
- **Null arguments.** The model takes the table, column and routine names
  as non-null strings. A null name is refused in the source the same way
  as a blank one, because `string.IsNullOrWhiteSpace` checks it. A null
  `routineType` makes `CallRoutineAsync` throw `NullReferenceException`
  at ApiService.cs:293. That case is not modelled.
- **Messages and notifications.** `ApiStatusMessage`, `MessageBox`,
  `Debug.WriteLine`, `OnPropertyChanged` and `UpdatePaginationCommands` are
  not modelled. They change no state that the model keeps.
- **Argument parsing.** The arguments box is not parsed into `RoutineCallArgs`
  (MainViewModel.cs:426-455); `CallSelectedRoutine` starts from the
  service's answer.
- **Header validation.** The exceptions of `HttpHeaders.Add` for invalid
  header values are not modelled.
- **Other operations.** These are not part of this model:
  - `CheckHealthAsyncWithLatency`, because it needs a stopwatch;
  - the one-line wrappers `GetTablesAsync`, `GetViewsAsync`,
    `GetProceduresAsync`, `GetFunctionsAsync` and `FormatErrorAsync`;
  - the window's `ExecuteLoad…Async`, `ExecuteCallRoutineAsync`,
    `ExecuteReadDataByColumnAsync` and `ExecuteCheckHealthAsync`.

  They only pass results of the modelled operations into fields.
- **The filter dictionary.** `ReadItemsAsync` receives it as a sequence of
  entries in enumeration order.
- **ReadData.** It is modelled after the service answered: the page
  request itself is `Services.ReadItemsAsync`, with an empty filter
  dictionary.

## Findings

| source | as written | input that shows it | evidently intended | confidence | as-written member | corrected member |
|---|---|---|---|---|---|---|
| MainViewModel.cs:457-516 with ApiService.cs:311 | `CallRoutineAsync` replaces a null response with an empty `RoutineCallResponse`, so the window's `response != null` test always holds. A failed call shows "Routine executed. No specific result data or status returned." and its error message is lost. | Calling a routine whose POST answers HTTP 404 | The failure branch: "Error: {message}" | not executed | `ViewModel.FailedCallShownAsExecuted` | `ViewModel.FailedCallShowsError` (with `ViewModel.PairView`) |
