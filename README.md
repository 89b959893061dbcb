# Learning-platform backend: verified model of its request logic

The backend is a small FastAPI service in `main.py`. It stores users, notes
and lesson progress in MongoDB. It also offers two rule-based helpers: a
"mentor" that answers with canned tips, and a naive code converter between
JavaScript and Python. Almost all of it is plumbing between HTTP and the
store. This project models the deterministic logic in Dafny and proves what
each piece promises:

- `oid_str` and `serialize_doc`, which every endpoint applies to the
  documents it returns (`documents.dfy`, module `Documents`);
- the completion count and rank ladder of `get_progress` (`progress.dfy`,
  module `Progress`);
- the answer built by `ai_mentor` (`mentor.dfy`, module `Mentor`), with its
  default answer spelled out in `mentor_examples.dfy` (module `MentorExamples`);
- the rewrite pipeline of `convert_code` (`converter.dfy`, module `Converter`),
  with two sample conversions worked through the handler in
  `converter_examples.dfy` (module `ConverterExamples`);
- the Python string builtins these rely on: `lower`, `title`, `strip`,
  `join` and `replace`, restricted to ASCII (`text.dfy`, module `Text`);
- an `Option` type (`wrappers.dfy`, module `Wrappers`).

`serialize_doc` and `convert_code` update local state step by step.
`SerializeDoc` and `ConvertCode` are therefore methods: the first has a loop
over the document's keys, the second rebinds `converted` one `replace` at a
time. Each is proved to meet a specification (`Serialized`, and `Converts`
built on `ApplyRules`), and the properties are proved about those. The
count, the rank ladder and the mentor answer are pure expressions in the
source, so they are modelled as functions.

A document is a `map<string, Value>`. `Value` covers ObjectIds, datetimes,
dates, strings, integers, booleans, `None`, lists and nested objects. Python
truthiness is the predicate `Truthy`. `str(obj)` and `obj.isoformat()` are
foreign formatters whose text is not modelled. Both are passed in as the two
function fields of a `Formatting` value, so every statement holds whatever
text they produce.

With equal language names, `convert_code` returns the stripped code, not
the code as given (main.py:273-276); `ConverterExamples.SameLanguageSample`
shows this on `" x"`.

## Model

| member | source | states |
|---|---|---|
| Documents.OidStr | main.py:22-28 | The identifier's string form is `str(obj)`, whether or not it is an ObjectId. |
| Documents.Truthy | main.py:35 | Python truthiness: `None`, `""`, `0`, `False` and empty lists and objects are falsy, and every other value (identifiers and dates included) is truthy. |
| Documents.IsDate | main.py:41 | The `isinstance(v, (datetime, date))` test: the value is a datetime or a date. |
| Documents.MovesId | main.py:35 | `d.get("_id")` is truthy: the key is present and its value is truthy. |
| Documents.Rendered | main.py:41-42 | A date or datetime becomes `Str` of its isoformat text, every other value is left as it is, and the result is not a date. Dates nested in lists or objects are kept. |
| Documents.Moved | main.py:35-36 | A truthy `_id` is taken out and `id` is added holding `Str(oid_str(_id))`, with every other entry keeping its value. A missing or falsy `_id` leaves the document as it is. |
| Documents.Serialized | main.py:31-45 | An empty document comes back as is. The key set is the input's, with `_id` replaced by `id` exactly when `_id` is truthy. `id` then holds `str(_id)`, and a falsy `_id` stays in place. Every other key keeps its value with dates turned into isoformat strings, so no top-level value is a date. Dates nested in lists or objects are kept. |
| Documents.SerializeDoc | main.py:31-45 | Copying the document, moving `_id` and then rewriting the dates of the copy key by key gives exactly `Serialized(doc)`. The input is a value and is not changed. |
| Documents.SerializedIdempotent | main.py:31-45 | Serializing a serialized document changes nothing. |
| Progress.IsCompleted | main.py:177 | `i.get("completed")` is truthy: the field is present and its value is truthy. |
| Progress.CompletedCount | main.py:177 | The count is at most the number of entries. It equals that number exactly when every entry is completed, and it is 0 exactly when none is. |
| Progress.CompletedCountIsSize | main.py:177 | The count is the number of positions whose entry has a truthy `completed`. |
| Progress.CompletedCountAppend | main.py:177 | The count over two lists of entries is the sum of their counts. |
| Progress.ProgressAppend | main.py:177 | One more entry raises the count by one if it is completed, and otherwise leaves it unchanged. |
| Progress.Threshold | main.py:179-185 | The inclusive lower bound of each rank: 0, 3, 10, 25, 50. |
| Progress.RankTier | main.py:179-188 | The ladder picks a rank whose lower bound (0, 3, 10, 25, 50) the count reaches, and no higher rank reaches it. |
| Progress.Label | main.py:180-188 | The five label strings, emoji included, one per rank; `LabelInjective` shows they are distinct. |
| Progress.Rank | main.py:179-188 | A label is returned exactly when its rank is the highest whose lower bound the count reaches. |
| Progress.RankMonotone | main.py:179-188 | A larger count never gives a lower rank. |
| Progress.LabelInjective | main.py:180-188 | The five labels are distinct, so the label determines the rank. |
| Progress.RankBoundaries | main.py:179-188 | 2 gives Newbie, 3 and 9 Bronze, 10 and 24 Silver, 25 and 49 Gold, 50 Platinum. |
| Progress.GetProgress | main.py:177-189 | The reply lists the entries serialized one for one and in order. `completed` is the number of completed entries and at most their number. `rank` is the rank of that count. |
| Mentor.OrDefault | main.py:244-245 | `x or default`: a missing or empty string gives the default, and any other string gives itself. |
| Mentor.TipsFor | main.py:246-263 | "intermediate" and "advanced" select their own three tips. Any other level falls back to the beginner tips. |
| Mentor.JoinIsBullets | main.py:263 | A leading `"\n- "` followed by the tips joined with `"\n- "` puts each tip on its own bullet line. |
| Mentor.AiMentor | main.py:243-263 | The answer is "Here are some", the level (default "beginner"), "tips for", the title-cased language (default "programming") and ":", then one bullet line per tip of that level. |
| Mentor.MentorIgnoresQuestion | main.py:243-263 | The question has no effect on the answer. |
| Mentor.MentorLanguageCaseInsensitive | main.py:244 | Writing the language in lower case gives the same answer. |
| Mentor.MentorDefaultLanguage | main.py:244 | A missing language, an empty one and "programming" give the same answer, and the header names "Programming". |
| Mentor.TitleProgramming | main.py:244 | "programming" title-cases to "Programming". |
| Mentor.MentorDefaultLevel | main.py:245 | A missing level, an empty one and "beginner" give the same answer. |
| MentorExamples.MentorDefaultAnswer | main.py:244-263 | With no language and no level, the answer is the beginner header for "Programming" followed by the three beginner tips as bullets. |
| Converter.IsJs | main.py:282 | `in ["javascript", "js"]`: the lower-cased name is one of the two JavaScript names. |
| Converter.ApplyRules | main.py:283-289 | The chained `replace` calls: each rule rewrites the result of the one before. Its meaning is fixed by `ApplyRulesConcat`, `ApplyRulesUnchanged` and `JsToPythonCalls`/`PythonToJsCalls`. |
| Converter.Converts | main.py:270-294 | The language names are compared after lower-casing, and the code is always stripped first. Equal names give the stripped code with the same-language note. js or javascript to python gives the five JavaScript rules applied in order, with their note. python to js or javascript gives the three Python rules applied in order, with their note. Any other pair gives the stripped code with the generic note. |
| Converter.ConvertCode | main.py:270-294 | Lower-casing, stripping, then rebinding `converted` through the selected `replace` calls and joining the one-note list gives exactly the answer `Converts` describes, for every input. |
| Converter.ConvertsJsToPython | main.py:282-286 | Whatever the spelling of the names, when they lower-case to a JavaScript name and "python" the answer is the JavaScript rules applied to the stripped code, with their note. |
| Converter.ConvertsPythonToJs | main.py:287-290 | When the names lower-case to "python" and a JavaScript name, the answer is the Python rules applied to the stripped code, with their note. |
| Converter.ApplyRulesUnchanged | main.py:282-290 | Code containing none of the patterns passes through every rule unchanged. |
| Converter.ApplyRulesConcat | main.py:283-285 | Applying two rule lists in turn is applying their concatenation, so chained `replace` calls compose. |
| Converter.JsToPythonCalls | main.py:282-285 | The JavaScript to Python rules are the five `replace` calls in the source's order. |
| Converter.PythonToJsCalls | main.py:287-289 | The Python to JavaScript rules are the three `replace` calls in the source's order. |
| Converter.NoEqualities | main.py:284 | Code without `=` or `!` is left alone by both equality rewrites. |
| ConverterExamples.JsToPythonExample | main.py:273-285 | "console.log(true)" is already stripped and becomes "print(True)". |
| ConverterExamples.PythonToJsExample | main.py:273-289 | "print(False)" is already stripped and becomes "console.log(false)". |
| ConverterExamples.ConvertJsSample | main.py:270-294 | Through the whole handler, `convert_code("javascript", "python", "console.log(true)")` answers "print(True)" with the JavaScript to Python note. |
| ConverterExamples.ConvertPythonSample | main.py:270-294 | Through the whole handler, `convert_code("python", "javascript", "print(False)")` answers "console.log(false)" with the Python to JavaScript note. |
| ConverterExamples.SameLanguageSample | main.py:273-276 | Through the whole handler, `convert_code("python", "python", " x")` answers the stripped "x", not the code as given, with the same-language note. |
| Text.Lower | main.py:271-272 | `lower()` keeps the length and lower-cases each character on its own. |
| Text.LowerIdempotent | main.py:271-272 | Lower-casing twice is lower-casing once. |
| Text.Title | main.py:244 | `title()` keeps the length, the letters and their lower-case forms. It makes every word start upper-case and go on in lower case. |
| Text.TitleShapeUnique | main.py:244 | The title shape fixes the text: two texts with equal lower-case forms and title shape are equal. |
| Text.TitleOfLower | main.py:244 | Title-casing ignores the case the input was written in. |
| Text.TitleOfLowerWord | main.py:244 | A lower-case word gets only its first letter capitalised. |
| Text.TitleIdempotent | main.py:244 | Title-casing twice is title-casing once. |
| Text.Strip | main.py:273 | `strip()` never lengthens the text. The result neither starts nor ends with white space, and text without white space at either end is returned as it is. |
| Text.StripPadded | main.py:273 | White space added at either end of the code does not change the stripped result. |
| Text.StripIdempotent | main.py:273 | Stripping twice is stripping once. |
| Text.Join | main.py:294 | Joining no notes gives "", and joining one gives that note. |
| Text.JoinAppend | main.py:263 | Joining one more part adds exactly one separator before it. |
| Text.ReplaceAll | main.py:283-289 | `str.replace` with a non-empty pattern. It carries no contract of its own: `ReplaceAllAbsent` and `ReplaceAllLeftmost` together fix its result on every input. |
| Text.ReplaceAllAbsent | main.py:283-289 | `replace` leaves text without the pattern unchanged. |
| Text.ReplaceAllLeftmost | main.py:283-289 | The leftmost occurrence is replaced first: the text before it is kept, and replacing resumes right after it, so occurrences never overlap. |
| Text.ReplaceAllFirstOccurrence | main.py:283-289 | The rewrite is purely textual: an occurrence is replaced whatever text comes before it, as long as that text lacks the pattern's first character. |
| Text.ReplaceAllSelf | main.py:283-289 | Replacing a pattern by itself changes nothing. |

## Left out

- The FastAPI application, CORS middleware, routing and the uvicorn start-up (main.py:10-18, main.py:297-300) are framework plumbing.
- The pydantic request models and `EmailStr` validation (main.py:50-89) belong to a library that is not modelled. In particular `level` is not restricted to the three `Literal` values: it is any optional string, and `TipsFor`'s fallback covers the others.
- All store I/O is left out. `signup`, `login`, `list_notes`, `create_note`, `update_progress` and `test_database` are not modelled, nor the fetch at the start of `get_progress` or the unseen `database` module. `GetProgress` takes the fetched entries as a parameter, and the fetch limit of 500 is not modelled.
- `datetime.utcnow()` and the text of `isoformat()` and `str(obj)` are a clock and foreign formatting. They are parameters, not definitions.
- `CURATED_CHANNELS` and `list_videos` (main.py:202-237) are constant data with no logic.
- Concurrent requests against the store are not modelled.
- Documents.Serialized: a map has no key order, so it does not say that `id` comes last in the returned dictionary.
- Documents.SerializeDoc: input `None` is not modelled. That is what the store returns when a lookup finds nothing. Only documents are accepted.
- Documents.OidStr: the `try`/`except` around the ObjectId test cannot change the result, since both paths return `str(obj)`. The model cannot see foreign exceptions.
- Documents.Rendered: the `try`/`except` around `isoformat()` is not modelled. A date is assumed to format without raising.
- Text.Lower, Text.Title and Text.Strip follow Python only on ASCII. Letters outside ASCII are never re-cased, and only ASCII white space (space, tab to carriage return, 0x1C to 0x1F) is stripped.
- Text.ReplaceAll: requires a non-empty pattern. Every call in the source uses one. Python's behaviour for an empty pattern, which inserts the replacement between every character, is not modelled.
