# LinguaSphere translator core, modelled in Dafny

LinguaSphere is a Streamlit translation assistant in a single file, `translator.py`.
Its logic, apart from widgets and remote calls, is:

- a static table `LANGUAGE_CODES` of 91 language names and their codes;
- the forward lookup `get_language_code`, which lower-cases and strips its argument;
- the prefix search `suggest_languages`;
- the reverse lookup from a detected code to a language name, written inline in `main`;
- the word-by-word flashcard generator `generate_flashcards`;
- three functions that keep the flashcards in `flashcards.json`: `save_flashcards`, `load_flashcards` and `delete_flashcard`;
- the checks `main` makes before it calls a translation service.

The model has one Dafny module per concern:

| file | module | what it holds |
|---|---|---|
| `wrappers.dfy` | `Wrappers` | `Option`, standing for Python's `None` / value |
| `text.dfy` | `Text` | `str.lower`, `str.strip`, `str.split()` and `str.startswith`, restricted to ASCII |
| `registry.dfy` | `Registry` | the table, `get_language_code`, `suggest_languages`, the reverse lookup |
| `flashcards.dfy` | `Flashcards` | `generate_flashcards` |
| `store.dfy` | `Store` | the flashcard file as a class with one field |
| `session.dfy` | `Session` | the request checks in `main`, MyMemory's detected-source field, the deck built after a translation |

The table is an ordered sequence of pairs, because a Python dict keeps insertion order and both the suggestions and the reverse lookup depend on that order.

The sequence is written as the eleven leading entries followed by the alphabetical run. The alphabetical run is cut into blocks by initial letter. That way, "no name is listed twice" and "every name is lower-case and trimmed" are proved block by block, then joined.

`generate_flashcards` pads two token lists in place and then filters by position. It is a method with a loop. The loop is proved equal to a recursive reference definition, `Positional`: the first `min` positions, paired.

The flashcard file is a class `FlashcardFile` with one field, `contents`, of type `StoredFile`. A `StoredFile` is one of:

- `Missing`;
- `Blank` (whitespace only);
- `Unparsable` (`json.load` raises);
- `Saved(cards)`.

`Load`, `Save` and `Delete` are methods. Each is specified by a pure function of the old contents: `Loaded`, `AfterSave` and `AfterDelete`. Lemmas about those functions state the append, remove and round-trip properties.

Where the code and the intended design differ, the model follows the code:

- `load_flashcards` reports a decoding error with `st.error` and returns `[]`. It does not raise.
- `save_flashcards` reads the file itself rather than through `load_flashcards`. An undecodable file makes it return `False` without writing, so such a file is never overwritten.
- `delete_flashcard` reports an invalid index and returns `False`. It does not raise.
- The "no Auto-Detect on MyMemory" guard lives in `main` (translator.py:349-351), not in `translate`. So `translate` itself would accept `"auto"`. The model proves that `main` never passes it one.

## Model

| member | source | states |
|---|---|---|
| Text.Lower | translator.py:145 | `lower()` keeps the length, maps each character on its own, and leaves no upper-case letter |
| Text.LowerIdempotent | translator.py:145 | lowering twice is lowering once |
| Text.Strip | translator.py:145 | `strip()` returns the empty string exactly when the input is all whitespace |
| Text.StripTrimmed | translator.py:145 | what `strip()` returns neither starts nor ends with whitespace |
| Text.StripExact | translator.py:145 | `strip()` removes the surrounding whitespace and returns the inner text unchanged |
| Text.StripAbsorbsBlank | translator.py:145 | extra whitespace around the input does not change what `strip()` returns |
| Text.Split | translator.py:153-154 | `split()` yields only non-empty tokens without whitespace, and nothing at all exactly for blank input; which tokens, for every layout of whitespace, is stated by Text.SplitWords |
| Text.SplitJoin | translator.py:153-154 | splitting words joined by single spaces gives the same words back |
| Text.SplitWords | translator.py:153-154 | for any text made of words separated by non-empty whitespace runs (tabs, newlines, several spaces), with any leading and trailing whitespace, `split()` returns exactly those words in order |
| Text.StartsWithConcat | translator.py:149 | `startswith(prefix)` holds exactly when the string is the prefix followed by some rest |
| Registry.Keys | translator.py:149 | `keys()` lists the names in table order, one per entry |
| Registry.KeysDistinct | translator.py:12-104 | a table whose names are unique yields a key list without repeats |
| Registry.Lookup | translator.py:145 | `dict.get` answers only with a code stored under the key, and with nothing only when no entry has that key |
| Registry.LookupFindsEntry | translator.py:145 | in a table with unique names, `get` returns the code stored under the name |
| Registry.FilterPrefix | translator.py:149 | the comprehension keeps exactly the names with the prefix, each as often as in the input, in their original order |
| Registry.FilterPrefixDistinct | translator.py:149 | filtering a list without repeats gives a list without repeats |
| Registry.FilterEmptyPrefix | translator.py:149 | the empty prefix keeps every name |
| Registry.FirstNameWithCode | translator.py:362-365 | the reverse lookup returns a name paired with the code when one exists, and "Unknown" otherwise |
| Registry.FirstNameWithCodeIsFirst | translator.py:362-365 | the reverse lookup returns the earliest name in table order that carries the code |
| Registry.LanguageCodesWellFormed | translator.py:12-104 | no language name is listed twice, and every code has two or three characters |
| Registry.LanguageCodesPlain | translator.py:12-104 | every name is non-empty, lower-case and has no surrounding whitespace |
| Registry.AlphabeticalUnique | translator.py:24-103 | the alphabetical run has unique names, all starting with a letter from a to z, and codes of two or three characters |
| Registry.LeadingNotRepeated | translator.py:13-23 | none of the eleven leading names reappears in the alphabetical run |
| Registry.LanguageCodesShape | translator.py:12-104 | the dict literal has 91 entries, with "english" first, "arabic" closing the eleven leading entries, "afrikaans" opening the alphabetical run and "zulu" last |
| Registry.Normalize | translator.py:145 | the key `lower().strip()` builds is empty exactly for blank input, has no whitespace at either end and no upper-case letter |
| Registry.PlainNameNormal | translator.py:145 | a name spelled as the table spells it is its own lower-cased, stripped form |
| Registry.GetLanguageCode | translator.py:143-145 | the lookup finds a code exactly when the lower-cased, stripped name is a table name, and only a code the table pairs with it |
| Registry.GetLanguageCodeExact | translator.py:143-145 | the lookup returns `code` if and only if the table pairs the normalised name with `code` |
| Registry.GetLanguageCodeIgnoresCaseAndPadding | translator.py:143-145 | case and surrounding whitespace of the argument do not change the result |
| Registry.TableNameResolves | translator.py:143-145 | every table name resolves to its own code |
| Registry.GetLanguageCodeExample | translator.py:143-145 | `get_language_code("english")` is `"en"` |
| Registry.GetLanguageCodePaddedExample | translator.py:143-145 | `get_language_code(" English ")` is `"en"` |
| Registry.SuggestLanguages | translator.py:147-149 | the suggestions are exactly the table names starting with the lower-cased input, in table order, each once |
| Registry.SuggestEverythingForEmptyInput | translator.py:147-149 | an empty input suggests every name in table order |
| Registry.SuggestLanguagesExample | translator.py:147-149 | "Sp" suggests "spanish" and not "french" |
| Registry.DetectedLanguageName | translator.py:362-365 | the name shown is "Unknown" exactly when no entry has the code; otherwise it is a table name whose lookup gives the code back |
| Registry.UnknownNotAName | translator.py:364 | the fallback "Unknown" can't be confused with a language name |
| Registry.AutoHasNoName | translator.py:117 | neither "auto" nor "auto-detected" is the code of any language |
| Flashcards.Padded | translator.py:156-158 | padding gives length `max(n, len)`, keeps the original tokens as a prefix, and adds only empty strings |
| Flashcards.Positional | translator.py:160-163 | the reference pairing has `min` cards, card `i` pairing token `i` of each side |
| Flashcards.GenerateFlashcards | translator.py:151-164 | the cards are exactly the positional pairs of the two splits. There are `min(|src|, |dst|)` of them, each front and back is a non-empty token, and every card carries the caller's labels |
| Flashcards.PositionalCardsWellFormed | translator.py:160-163 | cards built from split texts have non-empty fronts and backs and the given labels |
| Flashcards.TwoWordsEach | translator.py:151-164 | two words against two words give the two cards, in order |
| Flashcards.ThreeWordsAgainstTwo | translator.py:151-164 | an unmatched third word makes no card |
| Store.RemoveAt | translator.py:205 | `del` shortens the list by one; earlier cards keep their index and later ones move down one |
| Store.FlashcardFile.Load | translator.py:185-198 | loading returns the stored cards, and `[]` for an absent, blank or undecodable file |
| Store.FlashcardFile.Save | translator.py:166-183 | the save succeeds unless the file is undecodable. On success the file holds the old cards followed by the new ones; on failure it is unchanged |
| Store.FlashcardFile.Delete | translator.py:200-214 | the delete succeeds exactly for `0 <= index < len`; on success the file holds the list without that card, otherwise it is unchanged |
| Store.SaveAppends | translator.py:166-183 | a successful save appends after the loaded cards; a failed save changes nothing |
| Store.SaveTwice | translator.py:166-183 | two saves append both batches in call order |
| Store.DeleteRemoves | translator.py:203-208 | a valid delete drops the length by one and shifts later cards down one index |
| Store.DeleteOutOfRange | translator.py:204-211 | a negative or too-large index leaves the file unchanged |
| Store.SaveThenDeleteLast | translator.py:166-208 | deleting the card just saved at the end restores the previous list |
| Store.UnparsableIsFrozen | translator.py:175-183 | an undecodable file is rewritten neither by save nor by delete |
| Store.SaveTwiceThenLoad | translator.py:166-195 | `save([c1]); save([c2]); load()` on a fresh file returns `[c1, c2]` |
| Session.ValidateRequest | translator.py:336-352 | the outcome depends on the checks in order: blank text, then an unchosen language, then a target without a code, then Auto-Detect on MyMemory. Otherwise it carries the chosen service and both codes, and MyMemory never receives "auto" |
| Session.TargetCodeTruthy | translator.py:345 | `if target_code:` holds exactly when the target name, lower-cased and stripped, is a table name |
| Session.CodesAreShort | translator.py:345 | a code from the lookup is never empty, so `if target_code:` only fails for a missing code |
| Session.SelectedLanguagesTranslate | translator.py:303-352 | with text and two names picked from the selectors, the request always reaches a service with the target's code, except Auto-Detect on MyMemory |
| Session.ChooseLanguageNotAName | translator.py:304-316 | the placeholder entries "Choose a language" and "Auto-Detect" are not language names |
| Session.MyMemoryDetectedSource | translator.py:117 | the reported source is never the placeholder "auto", and every language code passes through unchanged |
| Session.MyMemoryReportsChosenSource | translator.py:117 | on every request MyMemory can receive, the detected source is the chosen code, and the name shown for it looks up to that code again |
| Session.FailedCallReadsUnboundResult | translator.py:378-380 | a service call that raises leads to the unbound read |
| Session.DeckAfterCall | translator.py:346-380 | the corrected step never reads an unbound result: it agrees with the code when the call returns, and leaves the deck alone when it raises |

## Left out

- `translate` (translator.py:106-120): the HTTP request, the JSON reply and its error wrapping are remote I/O. Only the shaping of `detected_source_language` at line 117 is modelled.
- `google_translate` (translator.py:122-132) and its `asyncio.run` call: a foreign library call.
- `text_to_speech` (translator.py:134-141): a foreign library call plus a file write.
- The Streamlit page in `main`: layout, widgets, CSS, sidebar, session state and message texts. The decisions at lines 336-352 and the reverse lookup at 362-365 are modelled; `capitalize()` on displayed names is not.
- Text.Lower, Text.Strip, Text.Split: cover ASCII only. Python's Unicode case mapping and Unicode whitespace are not modelled; the ASCII whitespace set is the one `str.isspace()` accepts below 128.
- Registry.DetectedLanguageName: states that the name shown looks up to the detected code again, not that it is the very name the user picked. The table's codes are in fact all distinct, but that fact is not proved, because pairwise comparison of all 91 codes is too expensive for the verifier.
- Store.FlashcardFile.Save: a write that fails (permissions, full disk) would make the source return `False` after reading. The model's writes always succeed.
- Store.FlashcardFile.Delete: the same holds for the write in `delete_flashcard`.
- JSON documents that decode to something other than a list of cards, such as an object: the model has no such file state.
- JSON formatting (`indent=4`, `ensure_ascii=False`) and the cards' dict encoding: a card is a datatype with four fields.
- The `filename` parameter of the three file functions: one `FlashcardFile` object stands for one path.
- Session.ValidateRequest: when a source name has no code, the model passes `None` on to the service, as the code does. What the services then do with it is remote behaviour and is not modelled.
- Concurrent access to the flashcard file by several processes.

## Findings

| source | as written | input that shows it | evidently intended | confidence | as-written member | corrected member |
|---|---|---|---|---|---|---|
| translator.py:346-380 | after the `try`/`except` around the service call, `generate_flashcards(text, result['translated'], ...)` runs even when the call raised, so it reads a `result` that was never assigned and raises `UnboundLocalError` out of `main` | any request that passes the checks while the chosen service raises (a network or HTTP error) | build a new deck only from a translation that exists; after a failed call, show only the reported error and keep the deck | high; not executed | Session.FailedCallReadsUnboundResult | Session.DeckAfterCall |
