/**
 * The decisions `main` in translator.py takes when "Translate Now" is
 * pressed, before any translation service is called: a blank text, an
 * unchosen language, a name without a code and Auto-Detect on MyMemory each
 * stop the request; otherwise the chosen service gets the two codes.
 * Also the shaping of MyMemory's answer, the reverse name lookup that
 * labels the result, and the flashcard deck built from the translation.
 */
module Session {
  import opened Wrappers
  import opened Text
  import opened Registry
  import opened Flashcards

  /** The placeholder entry at the top of both language selectors. */
  const ChooseLanguage: string := "Choose a language"

  /** The extra source-language entry offered for Google Translate. */
  const AutoDetect: string := "Auto-Detect"

  datatype TranslationMethod = MyMemoryApi | GoogleTranslate

  /** What pressing "Translate Now" leads to. */
  datatype Outcome =
    | EmptyTextWarning            // "Please enter some text to translate."
    | LanguagesNotChosenWarning   // "Please select both source and target languages."
    | NoTargetCode                // `if target_code:` fails and nothing is shown
    | AutoDetectUnsupported       // "Auto-Detect is not supported by MyMemory API. ..."
    | Translate(via: TranslationMethod, source: Option<string>, target: string)

  /** Python truthiness of `target_code`: present and not empty. */
  predicate Truthy(code: Option<string>) {
    code.Some? && code.value != []
  }

  /** The checks of `main`, in the order it makes them. */
  function ValidateRequest(via: TranslationMethod, sourceLang: string, targetLang: string, text: string): (o: Outcome)
    ensures o == EmptyTextWarning <==> IsBlank(text)
    ensures o == LanguagesNotChosenWarning <==>
      !IsBlank(text) && (sourceLang == ChooseLanguage || targetLang == ChooseLanguage)
    ensures o == NoTargetCode <==>
      !IsBlank(text) && sourceLang != ChooseLanguage && targetLang != ChooseLanguage &&
      GetLanguageCode(targetLang).None?
    ensures o == AutoDetectUnsupported <==>
      !IsBlank(text) && sourceLang != ChooseLanguage && targetLang != ChooseLanguage &&
      GetLanguageCode(targetLang).Some? && via == MyMemoryApi && sourceLang == AutoDetect
    ensures o.Translate? ==>
      o.via == via && Some(o.target) == GetLanguageCode(targetLang) &&
      o.source == (if sourceLang == AutoDetect then Some("auto") else GetLanguageCode(sourceLang))
    ensures o.Translate? && o.via == MyMemoryApi ==> o.source != Some("auto")
  {
    if Strip(text) == [] then EmptyTextWarning
    else if sourceLang == ChooseLanguage || targetLang == ChooseLanguage then LanguagesNotChosenWarning
    else
      var sourceCode := if sourceLang != AutoDetect then GetLanguageCode(sourceLang) else Some("auto");
      var targetCode := GetLanguageCode(targetLang);
      if !Truthy(targetCode) then
        CodesAreShort(targetLang);
        NoTargetCode
      else if via == MyMemoryApi && sourceLang == AutoDetect then AutoDetectUnsupported
      else
        CodesAreShort(sourceLang);
        Translate(via, sourceCode, targetCode.value)
  }

  /** Every code the lookup returns has two or three characters: it is never
      empty and never the placeholder "auto". */
  lemma CodesAreShort(langName: string)
    ensures GetLanguageCode(langName).Some? ==> 2 <= |GetLanguageCode(langName).value| <= 3
  {
    LanguageCodesWellFormed();
    var code := GetLanguageCode(langName);
    if code.Some? {
      var i :| 0 <= i < |LanguageCodes| && LanguageCodes[i] == (Normalize(langName), code.value);
    }
  }

  /** `if target_code:` holds exactly when the target name was found in the
      table: a looked-up code is never the empty string. */
  lemma TargetCodeTruthy(targetLang: string)
    ensures Truthy(GetLanguageCode(targetLang)) <==> Normalize(targetLang) in Keys(LanguageCodes)
  {
    CodesAreShort(targetLang);
  }

  /** With some text and two names picked from the selectors, the request
      always reaches a translation service, except Auto-Detect on MyMemory. */
  lemma SelectedLanguagesTranslate(via: TranslationMethod, sourceLang: string, targetLang: string, text: string,
                                   targetCode: string)
    requires !IsBlank(text)
    requires sourceLang == AutoDetect || sourceLang in Keys(LanguageCodes)
    requires (targetLang, targetCode) in LanguageCodes
    ensures via == MyMemoryApi && sourceLang == AutoDetect ==>
      ValidateRequest(via, sourceLang, targetLang, text) == AutoDetectUnsupported
    ensures via == GoogleTranslate || sourceLang != AutoDetect ==>
      ValidateRequest(via, sourceLang, targetLang, text).Translate? &&
      ValidateRequest(via, sourceLang, targetLang, text).target == targetCode
  {
    TableNameResolves(targetLang, targetCode);
    ChooseLanguageNotAName();
  }

  /** The two placeholder entries of the selectors are not language names. */
  lemma ChooseLanguageNotAName()
    ensures ChooseLanguage !in Keys(LanguageCodes)
    ensures AutoDetect !in Keys(LanguageCodes)
  {
    LanguageCodesPlain();
    assert ChooseLanguage[0] == 'C' && AutoDetect[0] == 'A';
    NotPlainNotKey(LanguageCodes, ChooseLanguage);
    NotPlainNotKey(LanguageCodes, AutoDetect);
  }

  /** The `detected_source_language` field of a MyMemory answer. */
  function MyMemoryDetectedSource(source: string): (detected: string)
    ensures detected != "auto"
    ensures source in Codes(LanguageCodes) ==> detected == source
  {
    AutoHasNoName();
    if source != "auto" then source else "auto-detected"
  }

  /** On every request MyMemory can receive, the detected source is the chosen
      source code, and the name shown for it resolves back to that code. */
  lemma MyMemoryReportsChosenSource(sourceLang: string, targetLang: string, text: string)
    requires ValidateRequest(MyMemoryApi, sourceLang, targetLang, text).Translate?
    ensures var o := ValidateRequest(MyMemoryApi, sourceLang, targetLang, text);
      o.source.Some? ==>
        MyMemoryDetectedSource(o.source.value) == o.source.value &&
        GetLanguageCode(DetectedLanguageName(o.source.value)) == o.source
  {
    var o := ValidateRequest(MyMemoryApi, sourceLang, targetLang, text);
    if o.source.Some? {
      assert o.source == GetLanguageCode(sourceLang);
      assert (Normalize(sourceLang), o.source.value) in LanguageCodes;
      assert o.source.value in Codes(LanguageCodes) by {
        var i :| 0 <= i < |LanguageCodes| && LanguageCodes[i] == (Normalize(sourceLang), o.source.value);
        assert Codes(LanguageCodes)[i] == o.source.value;
      }
    }
  }

  /** What the translation step leaves in the session's flashcard deck. */
  datatype DeckUpdate =
    | UnboundResult                   // `result` is read before it was ever assigned
    | NewDeck(cards: seq<Flashcard>)  // the deck is replaced by the generated cards
    | DeckUnchanged

  /** The statement after the `try` around the service call, as written: it
      builds the deck from `result['translated']` whether the call returned
      (`reply` holds the translated text) or raised (`reply` is `None`, and the
      exception was reported and swallowed). The cards are labelled with the
      selector entries, not with the codes. */
  function DeckAfterCallAsWritten(reply: Option<string>, text: string, sourceLang: string, targetLang: string)
    : DeckUpdate
  {
    match reply
    case None => UnboundResult
    case Some(translated) => NewDeck(Positional(Split(text), Split(translated), sourceLang, targetLang))
  }

  /** A service call that raises (a network error, say) is followed by a read
      of the unassigned `result`. */
  lemma FailedCallReadsUnboundResult(text: string, sourceLang: string, targetLang: string)
    ensures DeckAfterCallAsWritten(None, text, sourceLang, targetLang) == UnboundResult
  {
  }

  /** The evidently intended step: a deck is built only from a translation
      that exists, and a failed call leaves the deck alone. */
  function DeckAfterCall(reply: Option<string>, text: string, sourceLang: string, targetLang: string)
    : (u: DeckUpdate)
    ensures u != UnboundResult
    ensures reply.Some? ==> u == DeckAfterCallAsWritten(reply, text, sourceLang, targetLang)
    ensures reply.None? ==> u == DeckUnchanged
  {
    if reply.Some? then DeckAfterCallAsWritten(reply, text, sourceLang, targetLang) else DeckUnchanged
  }
}
