/**
 * The language registry of translator.py: the static name -> code table
 * `LANGUAGE_CODES`, the forward lookup `get_language_code`, the prefix
 * suggestion `suggest_languages`, and the reverse lookup from a detected
 * code back to a language name that `main` performs when it shows a result.
 *
 * A Python dict iterates in insertion order, so the table is an ordered
 * sequence of (name, code) pairs; the generic operations below work on any
 * such table, and the facts about the shipped table are proved separately.
 */
module Registry {
  import opened Wrappers
  import opened Text

  type Table = seq<(string, string)>

  /** No name occurs twice: the table is a well-formed dict. */
  predicate UniqueKeys(table: Table) {
    forall i, j :: 0 <= i < j < |table| ==> table[i].0 != table[j].0
  }

  predicate Distinct(names: seq<string>) {
    forall i, j :: 0 <= i < j < |names| ==> names[i] != names[j]
  }

  /** `a` is `b` with some elements left out and the rest kept in order. */
  predicate IsSubsequence(a: seq<string>, b: seq<string>)
    decreases |b|
  {
    a == [] || (b != [] && if a[0] == b[0] then IsSubsequence(a[1..], b[1..]) else IsSubsequence(a, b[1..]))
  }

  /** `table.keys()`, in table order. */
  function Keys(table: Table): (names: seq<string>)
    ensures |names| == |table|
    ensures forall i :: 0 <= i < |table| ==> names[i] == table[i].0
  {
    if table == [] then [] else [table[0].0] + Keys(table[1..])
  }

  /** The codes of `table`, in table order. */
  function Codes(table: Table): (codes: seq<string>)
    ensures |codes| == |table|
    ensures forall i :: 0 <= i < |table| ==> codes[i] == table[i].1
  {
    if table == [] then [] else [table[0].1] + Codes(table[1..])
  }

  /** `table.get(key)` */
  function Lookup(table: Table, key: string): (code: Option<string>)
    ensures code.Some? ==> (key, code.value) in table
    ensures code.None? ==> forall i :: 0 <= i < |table| ==> table[i].0 != key
  {
    if table == [] then None
    else if table[0].0 == key then Some(table[0].1)
    else Lookup(table[1..], key)
  }

  /** In a table with unique names, `get` finds the code stored under the name. */
  lemma {:induction false} LookupFindsEntry(table: Table, key: string, code: string)
    requires UniqueKeys(table)
    requires (key, code) in table
    ensures Lookup(table, key) == Some(code)
  {
    if table[0] != (key, code) {
      var j :| 0 <= j < |table| && table[j] == (key, code);
      assert table[0].0 != key;
      assert table[1..][j - 1] == (key, code);
      LookupFindsEntry(table[1..], key, code);
    }
  }

  /** `[n for n in names if n.startswith(prefix)]` */
  function FilterPrefix(names: seq<string>, prefix: string): (kept: seq<string>)
    ensures forall n :: n in kept <==> n in names && StartsWith(n, prefix)
    ensures forall n :: multiset(kept)[n] == if StartsWith(n, prefix) then multiset(names)[n] else 0
    ensures IsSubsequence(kept, names)
  {
    if names == [] then []
    else
      assert names == [names[0]] + names[1..];
      if StartsWith(names[0], prefix) then [names[0]] + FilterPrefix(names[1..], prefix)
      else FilterPrefix(names[1..], prefix)
  }

  /** Filtering a list without repeats yields a list without repeats. */
  lemma {:induction false} FilterPrefixDistinct(names: seq<string>, prefix: string)
    requires Distinct(names)
    ensures Distinct(FilterPrefix(names, prefix))
  {
    if names != [] {
      FilterPrefixDistinct(names[1..], prefix);
      assert names[0] !in names[1..];
    }
  }

  /** Every name starts with the empty prefix, so nothing is filtered out. */
  lemma {:induction false} FilterEmptyPrefix(names: seq<string>)
    ensures FilterPrefix(names, []) == names
  {
    if names != [] {
      FilterEmptyPrefix(names[1..]);
    }
  }

  /** `next((n for n, c in table.items() if c == code), "Unknown")` */
  function FirstNameWithCode(table: Table, code: string): (name: string)
    ensures code in Codes(table) ==> (name, code) in table
    ensures code !in Codes(table) ==> name == "Unknown"
  {
    if table == [] then "Unknown"
    else if table[0].1 == code then table[0].0
    else FirstNameWithCode(table[1..], code)
  }

  /** The reverse lookup answers with the name of the earliest entry carrying the code. */
  lemma {:induction false} FirstNameWithCodeIsFirst(table: Table, code: string, i: nat)
    requires i < |table| && table[i].1 == code
    requires forall k :: 0 <= k < i ==> table[k].1 != code
    ensures FirstNameWithCode(table, code) == table[i].0
  {
    if i > 0 {
      FirstNameWithCodeIsFirst(table[1..], code, i - 1);
    }
  }

  /** No name of `a` occurs in `b`. */
  predicate KeysDisjoint(a: Table, b: Table) {
    forall i, j :: 0 <= i < |a| && 0 <= j < |b| ==> a[i].0 != b[j].0
  }

  /** Every name of `table` is non-empty and starts with a character in `lo`..`hi`. */
  predicate InitialsBetween(table: Table, lo: char, hi: char) {
    forall i :: 0 <= i < |table| ==> table[i].0 != [] && lo <= table[i].0[0] <= hi
  }

  /** Joining two tables with unique and mutually disjoint names keeps the names unique. */
  lemma UniqueKeysAppend(a: Table, b: Table)
    requires UniqueKeys(a) && UniqueKeys(b) && KeysDisjoint(a, b)
    ensures UniqueKeys(a + b)
  {
    forall i, j | 0 <= i < j < |a + b|
      ensures (a + b)[i].0 != (a + b)[j].0
    {
      if i < |a| <= j {
        assert (a + b)[j] == b[j - |a|];
      }
    }
  }

  lemma DisjointAppend(a: Table, b: Table, c: Table)
    requires KeysDisjoint(a, b) && KeysDisjoint(a, c)
    ensures KeysDisjoint(a, b + c)
  {
    forall i, j | 0 <= i < |a| && |b| <= j < |b + c|
      ensures a[i].0 != (b + c)[j].0
    {
      assert (b + c)[j] == c[j - |b|];
    }
  }

  /** Every code is two or three characters long, like the ISO 639 codes the table uses. */
  predicate ShortCodes(table: Table) {
    forall i :: 0 <= i < |table| ==> 2 <= |table[i].1| <= 3
  }

  /** A name as the table spells it: lower-case letters and inner spaces only. */
  predicate PlainName(name: string) {
    name != [] && name[0] != ' ' && name[|name| - 1] != ' ' &&
    forall k :: 0 <= k < |name| ==> 'a' <= name[k] <= 'z' || name[k] == ' '
  }

  predicate PlainNames(table: Table) {
    forall i :: 0 <= i < |table| ==> PlainName(table[i].0)
  }

  /** A run of entries with unique names, initials in `lo`..`hi`, and short codes. */
  predicate IsBlock(table: Table, lo: char, hi: char) {
    UniqueKeys(table) && InitialsBetween(table, lo, hi) && ShortCodes(table)
  }

  lemma ShortCodesAppend(a: Table, b: Table)
    requires ShortCodes(a) && ShortCodes(b)
    ensures ShortCodes(a + b)
  {
    forall i | |a| <= i < |a + b|
      ensures 2 <= |(a + b)[i].1| <= 3
    {
      assert (a + b)[i] == b[i - |a|];
    }
  }

  /** Two blocks whose ranges of initials do not overlap join into one block. */
  lemma JoinBlocks(a: Table, b: Table, loA: char, hiA: char, loB: char, hiB: char)
    requires IsBlock(a, loA, hiA) && IsBlock(b, loB, hiB) && loA <= hiA < loB <= hiB
    ensures IsBlock(a + b, loA, hiB)
  {
    forall i | 0 <= i < |a + b|
      ensures (a + b)[i].0 != [] && loA <= (a + b)[i].0[0] <= hiB
      ensures 2 <= |(a + b)[i].1| <= 3
    {
      if i >= |a| {
        assert (a + b)[i] == b[i - |a|];
      }
    }
    assert KeysDisjoint(a, b);
    UniqueKeysAppend(a, b);
  }

  /** `LANGUAGE_CODES`: the dict literal lists eleven widely spoken languages
      first and then the remaining ones alphabetically; the alphabetical run is
      written here in blocks of initials so that its facts can be checked block
      by block. */
  const LanguageCodes: Table := LeadingLanguages + AlphabeticalLanguages

  /** The dict literal has 91 entries, from "english" first to "zulu" last. */
  lemma LanguageCodesShape()
    ensures |LanguageCodes| == 91
    ensures LanguageCodes[0] == ("english", "en")
    ensures LanguageCodes[10] == ("arabic", "ar")
    ensures LanguageCodes[11] == ("afrikaans", "af")
    ensures LanguageCodes[90] == ("zulu", "zu")
  {
  }

  const AlphabeticalLanguages: Table :=
    LanguagesAToC + (LanguagesDToH + (LanguagesIToL + (LanguagesMToN + (LanguagesOToS + (LanguagesTToZ)))))

  const LeadingLanguages: Table :=
    [
      ("english", "en"),
      ("spanish", "es"),
      ("french", "fr"),
      ("german", "de"),
      ("italian", "it"),
      ("portuguese", "pt"),
      ("russian", "ru"),
      ("chinese", "zh"),
      ("japanese", "ja"),
      ("korean", "ko"),
      ("arabic", "ar")
    ]

  const LanguagesAToC: Table := LanguagesA + (LanguagesB + LanguagesC)

  const LanguagesA: Table :=
    [
      ("afrikaans", "af"),
      ("albanian", "sq"),
      ("armenian", "hy"),
      ("azerbaijani", "az")
    ]

  const LanguagesB: Table :=
    [
      ("basque", "eu"),
      ("belarusian", "be"),
      ("bengali", "bn"),
      ("bosnian", "bs"),
      ("bulgarian", "bg")
    ]

  const LanguagesC: Table :=
    [
      ("catalan", "ca"),
      ("cebuano", "ceb"),
      ("croatian", "hr"),
      ("czech", "cs")
    ]

  const LanguagesDToH: Table := LanguagesDToF + (LanguagesG + LanguagesH)

  const LanguagesDToF: Table :=
    [
      ("danish", "da"),
      ("dutch", "nl"),
      ("esperanto", "eo"),
      ("estonian", "et"),
      ("filipino", "tl"),
      ("finnish", "fi")
    ]

  const LanguagesG: Table :=
    [
      ("galician", "gl"),
      ("georgian", "ka"),
      ("greek", "el"),
      ("gujarati", "gu")
    ]

  const LanguagesH: Table :=
    [
      ("haitian creole", "ht"),
      ("hausa", "ha"),
      ("hebrew", "he"),
      ("hindi", "hi"),
      ("hmong", "hmn"),
      ("hungarian", "hu")
    ]

  const LanguagesIToL: Table := LanguagesIToJ + (LanguagesK + LanguagesL)

  const LanguagesIToJ: Table :=
    [
      ("icelandic", "is"),
      ("igbo", "ig"),
      ("indonesian", "id"),
      ("irish", "ga"),
      ("javanese", "jv")
    ]

  const LanguagesK: Table :=
    [
      ("kannada", "kn"),
      ("kazakh", "kk"),
      ("khmer", "km"),
      ("kurdish", "ku"),
      ("kyrgyz", "ky")
    ]

  const LanguagesL: Table :=
    [
      ("lao", "lo"),
      ("latvian", "lv"),
      ("lithuanian", "lt"),
      ("luxembourgish", "lb")
    ]

  const LanguagesMToN: Table := LanguagesM + LanguagesN

  const LanguagesM: Table :=
    [
      ("macedonian", "mk"),
      ("malagasy", "mg"),
      ("malay", "ms"),
      ("malayalam", "ml"),
      ("maltese", "mt"),
      ("maori", "mi"),
      ("marathi", "mr"),
      ("mongolian", "mn"),
      ("myanmar", "my")
    ]

  const LanguagesN: Table :=
    [
      ("nepali", "ne"),
      ("norwegian", "no")
    ]

  const LanguagesOToS: Table := LanguagesOToR + LanguagesS

  const LanguagesOToR: Table :=
    [
      ("persian", "fa"),
      ("polish", "pl"),
      ("punjabi", "pa"),
      ("romanian", "ro")
    ]

  const LanguagesS: Table :=
    [
      ("serbian", "sr"),
      ("sinhala", "si"),
      ("slovak", "sk"),
      ("slovenian", "sl"),
      ("somali", "so"),
      ("sundanese", "su"),
      ("swahili", "sw"),
      ("swedish", "sv")
    ]

  const LanguagesTToZ: Table := LanguagesT + (LanguagesU + LanguagesVToZ)

  const LanguagesT: Table :=
    [
      ("tajik", "tg"),
      ("tamil", "ta"),
      ("telugu", "te"),
      ("thai", "th"),
      ("turkish", "tr")
    ]

  const LanguagesU: Table :=
    [
      ("ukrainian", "uk"),
      ("urdu", "ur"),
      ("uzbek", "uz")
    ]

  const LanguagesVToZ: Table :=
    [
      ("vietnamese", "vi"),
      ("welsh", "cy"),
      ("xhosa", "xh"),
      ("yiddish", "yi"),
      ("yoruba", "yo"),
      ("zulu", "zu")
    ]

  lemma LanguagesAIsBlock()
    ensures IsBlock(LanguagesA, 'a', 'a')
  {
  }

  lemma LanguagesBIsBlock()
    ensures IsBlock(LanguagesB, 'b', 'b')
  {
  }

  lemma LanguagesCIsBlock()
    ensures IsBlock(LanguagesC, 'c', 'c')
  {
  }

  lemma LanguagesAToCIsBlock()
    ensures IsBlock(LanguagesAToC, 'a', 'c')
  {
    LanguagesAIsBlock();
    LanguagesBIsBlock();
    LanguagesCIsBlock();
    JoinBlocks(LanguagesB, LanguagesC, 'b', 'b', 'c', 'c');
    JoinBlocks(LanguagesA, LanguagesB + LanguagesC, 'a', 'a', 'b', 'c');
  }

  lemma LanguagesDToFIsBlock()
    ensures IsBlock(LanguagesDToF, 'd', 'f')
  {
  }

  lemma LanguagesGIsBlock()
    ensures IsBlock(LanguagesG, 'g', 'g')
  {
  }

  lemma LanguagesHIsBlock()
    ensures IsBlock(LanguagesH, 'h', 'h')
  {
  }

  lemma LanguagesDToHIsBlock()
    ensures IsBlock(LanguagesDToH, 'd', 'h')
  {
    LanguagesDToFIsBlock();
    LanguagesGIsBlock();
    LanguagesHIsBlock();
    JoinBlocks(LanguagesG, LanguagesH, 'g', 'g', 'h', 'h');
    JoinBlocks(LanguagesDToF, LanguagesG + LanguagesH, 'd', 'f', 'g', 'h');
  }

  lemma LanguagesIToJIsBlock()
    ensures IsBlock(LanguagesIToJ, 'i', 'j')
  {
  }

  lemma LanguagesKIsBlock()
    ensures IsBlock(LanguagesK, 'k', 'k')
  {
  }

  lemma LanguagesLIsBlock()
    ensures IsBlock(LanguagesL, 'l', 'l')
  {
  }

  lemma LanguagesIToLIsBlock()
    ensures IsBlock(LanguagesIToL, 'i', 'l')
  {
    LanguagesIToJIsBlock();
    LanguagesKIsBlock();
    LanguagesLIsBlock();
    JoinBlocks(LanguagesK, LanguagesL, 'k', 'k', 'l', 'l');
    JoinBlocks(LanguagesIToJ, LanguagesK + LanguagesL, 'i', 'j', 'k', 'l');
  }

  lemma LanguagesMIsBlock()
    ensures IsBlock(LanguagesM, 'm', 'm')
  {
  }

  lemma LanguagesNIsBlock()
    ensures IsBlock(LanguagesN, 'n', 'n')
  {
  }

  lemma LanguagesMToNIsBlock()
    ensures IsBlock(LanguagesMToN, 'm', 'n')
  {
    LanguagesMIsBlock();
    LanguagesNIsBlock();
    JoinBlocks(LanguagesM, LanguagesN, 'm', 'm', 'n', 'n');
  }

  lemma LanguagesOToRIsBlock()
    ensures IsBlock(LanguagesOToR, 'o', 'r')
  {
  }

  lemma LanguagesSIsBlock()
    ensures IsBlock(LanguagesS, 's', 's')
  {
  }

  lemma LanguagesOToSIsBlock()
    ensures IsBlock(LanguagesOToS, 'o', 's')
  {
    LanguagesOToRIsBlock();
    LanguagesSIsBlock();
    JoinBlocks(LanguagesOToR, LanguagesS, 'o', 'r', 's', 's');
  }

  lemma LanguagesTIsBlock()
    ensures IsBlock(LanguagesT, 't', 't')
  {
  }

  lemma LanguagesUIsBlock()
    ensures IsBlock(LanguagesU, 'u', 'u')
  {
  }

  lemma LanguagesVToZIsBlock()
    ensures IsBlock(LanguagesVToZ, 'v', 'z')
  {
  }

  lemma LanguagesTToZIsBlock()
    ensures IsBlock(LanguagesTToZ, 't', 'z')
  {
    LanguagesTIsBlock();
    LanguagesUIsBlock();
    LanguagesVToZIsBlock();
    JoinBlocks(LanguagesU, LanguagesVToZ, 'u', 'u', 'v', 'z');
    JoinBlocks(LanguagesT, LanguagesU + LanguagesVToZ, 't', 't', 'u', 'z');
  }

  /** The alphabetical run has no repeated name: each block has none, and the
      blocks cover separate ranges of initials. */
  lemma AlphabeticalUnique()
    ensures IsBlock(AlphabeticalLanguages, 'a', 'z')
  {
    LanguagesAToCIsBlock();
    LanguagesDToHIsBlock();
    LanguagesIToLIsBlock();
    LanguagesMToNIsBlock();
    LanguagesOToSIsBlock();
    LanguagesTToZIsBlock();
    JoinBlocks(LanguagesOToS, LanguagesTToZ, 'o', 's', 't', 'z');
    JoinBlocks(LanguagesMToN, LanguagesOToS + LanguagesTToZ, 'm', 'n', 'o', 'z');
    JoinBlocks(LanguagesIToL, LanguagesMToN + (LanguagesOToS + LanguagesTToZ), 'i', 'l', 'm', 'z');
    JoinBlocks(LanguagesDToH, LanguagesIToL + (LanguagesMToN + (LanguagesOToS + LanguagesTToZ)), 'd', 'h', 'i', 'z');
    JoinBlocks(LanguagesAToC, LanguagesDToH + (LanguagesIToL + (LanguagesMToN + (LanguagesOToS + LanguagesTToZ))), 'a', 'c', 'd', 'z');
  }

  /** None of the eleven leading names reappears in the alphabetical run. */
  lemma LeadingNotRepeated()
    ensures KeysDisjoint(LeadingLanguages, AlphabeticalLanguages)
  {
    LeadingNotInAToC();
    LeadingNotInDToH();
    LeadingNotInIToL();
    LeadingNotInMToN();
    LeadingNotInOToS();
    LeadingNotInTToZ();
    DisjointAppend(LeadingLanguages, LanguagesOToS, LanguagesTToZ);
    DisjointAppend(LeadingLanguages, LanguagesMToN, LanguagesOToS + LanguagesTToZ);
    DisjointAppend(LeadingLanguages, LanguagesIToL, LanguagesMToN + (LanguagesOToS + LanguagesTToZ));
    DisjointAppend(LeadingLanguages, LanguagesDToH, LanguagesIToL + (LanguagesMToN + (LanguagesOToS + LanguagesTToZ)));
    DisjointAppend(LeadingLanguages, LanguagesAToC, LanguagesDToH + (LanguagesIToL + (LanguagesMToN + (LanguagesOToS + LanguagesTToZ))));
  }

  lemma LeadingNotInAToC()
    ensures KeysDisjoint(LeadingLanguages, LanguagesAToC)
  {
  }

  lemma LeadingNotInDToH()
    ensures KeysDisjoint(LeadingLanguages, LanguagesDToH)
  {
  }

  lemma LeadingNotInIToL()
    ensures KeysDisjoint(LeadingLanguages, LanguagesIToL)
  {
  }

  lemma LeadingNotInMToN()
    ensures KeysDisjoint(LeadingLanguages, LanguagesMToN)
  {
  }

  lemma LeadingNotInOToS()
    ensures KeysDisjoint(LeadingLanguages, LanguagesOToS)
  {
  }

  lemma LeadingNotInTToZ()
    ensures KeysDisjoint(LeadingLanguages, LanguagesTToZ)
  {
  }

  /** The table is a well-formed dict: no language name is listed twice,
      and every code is two or three characters long. */
  lemma LanguageCodesWellFormed()
    ensures UniqueKeys(LanguageCodes)
    ensures ShortCodes(LanguageCodes)
  {
    LeadingWellFormed();
    AlphabeticalUnique();
    LeadingNotRepeated();
    UniqueKeysAppend(LeadingLanguages, AlphabeticalLanguages);
    ShortCodesAppend(LeadingLanguages, AlphabeticalLanguages);
  }

  lemma LeadingWellFormed()
    ensures UniqueKeys(LeadingLanguages) && ShortCodes(LeadingLanguages)
  {
  }

  lemma LeadingLanguagesPlain()
    ensures PlainNames(LeadingLanguages)
  {
    LeadingHeadPlain();
    LeadingTailPlain();
  }

  lemma LeadingHeadPlain()
    ensures forall i :: 0 <= i < 6 ==> PlainName(LeadingLanguages[i].0)
  {
  }

  lemma LeadingTailPlain()
    ensures forall i :: 6 <= i < |LeadingLanguages| ==> PlainName(LeadingLanguages[i].0)
  {
  }

  lemma LanguagesAPlain()
    ensures PlainNames(LanguagesA)
  {
  }

  lemma LanguagesBPlain()
    ensures PlainNames(LanguagesB)
  {
  }

  lemma LanguagesCPlain()
    ensures PlainNames(LanguagesC)
  {
  }

  lemma LanguagesDToFPlain()
    ensures PlainNames(LanguagesDToF)
  {
  }

  lemma LanguagesGPlain()
    ensures PlainNames(LanguagesG)
  {
  }

  lemma LanguagesHPlain()
    ensures PlainNames(LanguagesH)
  {
  }

  lemma LanguagesIToJPlain()
    ensures PlainNames(LanguagesIToJ)
  {
  }

  lemma LanguagesKPlain()
    ensures PlainNames(LanguagesK)
  {
  }

  lemma LanguagesLPlain()
    ensures PlainNames(LanguagesL)
  {
  }

  lemma LanguagesMPlain()
    ensures PlainNames(LanguagesM)
  {
    LanguagesMHeadPlain();
    LanguagesMTailPlain();
  }

  lemma LanguagesMHeadPlain()
    ensures forall i :: 0 <= i < 5 ==> PlainName(LanguagesM[i].0)
  {
  }

  lemma LanguagesMTailPlain()
    ensures forall i :: 5 <= i < |LanguagesM| ==> PlainName(LanguagesM[i].0)
  {
  }

  lemma LanguagesNPlain()
    ensures PlainNames(LanguagesN)
  {
  }

  lemma LanguagesOToRPlain()
    ensures PlainNames(LanguagesOToR)
  {
  }

  lemma LanguagesSPlain()
    ensures PlainNames(LanguagesS)
  {
  }

  lemma LanguagesTPlain()
    ensures PlainNames(LanguagesT)
  {
  }

  lemma LanguagesUPlain()
    ensures PlainNames(LanguagesU)
  {
  }

  lemma LanguagesVToZPlain()
    ensures PlainNames(LanguagesVToZ)
  {
  }

  lemma PlainNamesAppend(a: Table, b: Table)
    requires PlainNames(a) && PlainNames(b)
    ensures PlainNames(a + b)
  {
    forall i | |a| <= i < |a + b|
      ensures PlainName((a + b)[i].0)
    {
      assert (a + b)[i] == b[i - |a|];
    }
  }

  lemma LanguagesAToCPlain()
    ensures PlainNames(LanguagesAToC)
  {
    LanguagesAPlain();
    LanguagesBPlain();
    LanguagesCPlain();
    PlainNamesAppend(LanguagesB, LanguagesC);
    PlainNamesAppend(LanguagesA, LanguagesB + LanguagesC);
  }

  lemma LanguagesDToHPlain()
    ensures PlainNames(LanguagesDToH)
  {
    LanguagesDToFPlain();
    LanguagesGPlain();
    LanguagesHPlain();
    PlainNamesAppend(LanguagesG, LanguagesH);
    PlainNamesAppend(LanguagesDToF, LanguagesG + LanguagesH);
  }

  lemma LanguagesIToLPlain()
    ensures PlainNames(LanguagesIToL)
  {
    LanguagesIToJPlain();
    LanguagesKPlain();
    LanguagesLPlain();
    PlainNamesAppend(LanguagesK, LanguagesL);
    PlainNamesAppend(LanguagesIToJ, LanguagesK + LanguagesL);
  }

  lemma LanguagesMToNPlain()
    ensures PlainNames(LanguagesMToN)
  {
    LanguagesMPlain();
    LanguagesNPlain();
    PlainNamesAppend(LanguagesM, LanguagesN);
  }

  lemma LanguagesOToSPlain()
    ensures PlainNames(LanguagesOToS)
  {
    LanguagesOToRPlain();
    LanguagesSPlain();
    PlainNamesAppend(LanguagesOToR, LanguagesS);
  }

  lemma LanguagesTToZPlain()
    ensures PlainNames(LanguagesTToZ)
  {
    LanguagesTPlain();
    LanguagesUPlain();
    LanguagesVToZPlain();
    PlainNamesAppend(LanguagesU, LanguagesVToZ);
    PlainNamesAppend(LanguagesT, LanguagesU + LanguagesVToZ);
  }

  /** Every name of the table is already lower-case and free of surrounding
      whitespace, so it is its own normal form. */
  lemma LanguageCodesPlain()
    ensures PlainNames(LanguageCodes)
  {
    LeadingLanguagesPlain();
    LanguagesAToCPlain();
    LanguagesDToHPlain();
    LanguagesIToLPlain();
    LanguagesMToNPlain();
    LanguagesOToSPlain();
    LanguagesTToZPlain();
    PlainNamesAppend(LanguagesOToS, LanguagesTToZ);
    PlainNamesAppend(LanguagesMToN, LanguagesOToS + LanguagesTToZ);
    PlainNamesAppend(LanguagesIToL, LanguagesMToN + (LanguagesOToS + LanguagesTToZ));
    PlainNamesAppend(LanguagesDToH, LanguagesIToL + (LanguagesMToN + (LanguagesOToS + LanguagesTToZ)));
    PlainNamesAppend(LanguagesAToC, LanguagesDToH + (LanguagesIToL + (LanguagesMToN + (LanguagesOToS + LanguagesTToZ))));
    PlainNamesAppend(LeadingLanguages, AlphabeticalLanguages);
  }

  /** The key `get_language_code` looks up: `lang_name.lower().strip()`. */
  function Normalize(name: string): (key: string)
    ensures key == [] <==> IsBlank(name)
    ensures key == [] || (!IsSpace(key[0]) && !IsSpace(key[|key| - 1]))
    ensures forall i :: 0 <= i < |key| ==> !IsUpper(key[i])
  {
    NormalizeForm(name);
    Strip(Lower(name))
  }

  lemma NormalizeForm(name: string)
    ensures var key := Strip(Lower(name));
      (key == [] <==> IsBlank(name)) &&
      (key == [] || (!IsSpace(key[0]) && !IsSpace(key[|key| - 1]))) &&
      (forall i :: 0 <= i < |key| ==> !IsUpper(key[i]))
  {
    LowerKeepsBlank(name);
    StripTrimmed(Lower(name));
    StripKeepsLower(Lower(name));
  }

  /** A name spelled the way the table spells it is its own normal form. */
  lemma PlainNameNormal(name: string)
    requires PlainName(name)
    ensures Normalize(name) == name
  {
    assert Lower(name) == name;
    assert [] + name + [] == name;
    StripExact([], name, []);
  }

  /** A table with unique names lists each name once. */
  lemma KeysDistinct(table: Table)
    requires UniqueKeys(table)
    ensures Distinct(Keys(table))
  {
  }

  /** `get_language_code(lang_name)`: the code stored under the normalised name,
      or nothing when the table has no such name. */
  function GetLanguageCode(langName: string): (code: Option<string>)
    ensures code.Some? <==> Normalize(langName) in Keys(LanguageCodes)
    ensures code.Some? ==> (Normalize(langName), code.value) in LanguageCodes
  {
    Lookup(LanguageCodes, Normalize(langName))
  }

  /** The lookup answers with `code` exactly when the table pairs the
      normalised name with `code`. */
  lemma GetLanguageCodeExact(langName: string, code: string)
    ensures GetLanguageCode(langName) == Some(code) <==> (Normalize(langName), code) in LanguageCodes
  {
    if (Normalize(langName), code) in LanguageCodes {
      LanguageCodesWellFormed();
      LookupFindsEntry(LanguageCodes, Normalize(langName), code);
    }
  }

  /** Case and surrounding whitespace of the argument do not matter. */
  lemma GetLanguageCodeIgnoresCaseAndPadding(lead: string, langName: string, trail: string)
    requires IsBlank(lead) && IsBlank(trail)
    ensures GetLanguageCode(lead + langName + trail) == GetLanguageCode(langName)
    ensures GetLanguageCode(Lower(langName)) == GetLanguageCode(langName)
  {
    LowerAppend(lead + langName, trail);
    LowerAppend(lead, langName);
    LowerBlank(lead);
    LowerBlank(trail);
    StripAbsorbsBlank(lead, Lower(langName), trail);
    LowerIdempotent(langName);
  }

  /** Every name the table lists resolves to its own code; this is what the
      language selectors rely on, since they offer exactly the table's names. */
  lemma TableNameResolves(name: string, code: string)
    requires (name, code) in LanguageCodes
    ensures GetLanguageCode(name) == Some(code)
  {
    LanguageCodesPlain();
    var i :| 0 <= i < |LanguageCodes| && LanguageCodes[i] == (name, code);
    assert PlainName(LanguageCodes[i].0);
    PlainNameNormal(name);
    GetLanguageCodeExact(name, code);
  }

  lemma GetLanguageCodeExample()
    ensures GetLanguageCode("english") == Some("en")
  {
    assert LanguageCodes[0] == ("english", "en");
    TableNameResolves("english", "en");
  }

  lemma GetLanguageCodePaddedExample()
    ensures GetLanguageCode(" English ") == Some("en")
  {
    EnglishSpelling();
    GetLanguageCodeIgnoresCaseAndPadding(" ", "English", " ");
    GetLanguageCodeExample();
  }

  lemma EnglishSpelling()
    ensures " English " == " " + "English" + " "
    ensures Lower("English") == "english"
  {
    assert Lower("English")[0] == 'e';
  }

  /** `suggest_languages(partial)`: the table's names that start with the
      lower-cased input, in table order, each once. */
  function SuggestLanguages(partial: string): (names: seq<string>)
    ensures forall n :: n in names <==> n in Keys(LanguageCodes) && StartsWith(n, Lower(partial))
    ensures IsSubsequence(names, Keys(LanguageCodes))
    ensures Distinct(names)
  {
    LanguageCodesWellFormed();
    KeysDistinct(LanguageCodes);
    FilterPrefixDistinct(Keys(LanguageCodes), Lower(partial));
    FilterPrefix(Keys(LanguageCodes), Lower(partial))
  }

  /** An empty input suggests every language, in table order. */
  lemma SuggestEverythingForEmptyInput()
    ensures SuggestLanguages("") == Keys(LanguageCodes)
  {
    assert Lower("") == "";
    FilterEmptyPrefix(Keys(LanguageCodes));
  }

  lemma SuggestLanguagesExample()
    ensures "spanish" in SuggestLanguages("Sp")
    ensures "french" !in SuggestLanguages("Sp")
  {
    assert Lower("Sp") == "sp";
    assert Keys(LanguageCodes)[1] == "spanish";
    assert !StartsWith("french", "sp");
  }

  /** The name `main` shows for the detected source code of a translation:
      the first table name carrying that code, or "Unknown". */
  function DetectedLanguageName(code: string): (name: string)
    ensures name == "Unknown" <==> code !in Codes(LanguageCodes)
    ensures name != "Unknown" ==> GetLanguageCode(name) == Some(code)
  {
    var name := FirstNameWithCode(LanguageCodes, code);
    if code in Codes(LanguageCodes) then
      TableNameResolves(name, code);
      UnknownNotAName();
      name
    else
      name
  }

  /** "Unknown" is not a language name of the table (it is capitalised). */
  lemma UnknownNotAName()
    ensures "Unknown" !in Keys(LanguageCodes)
  {
    LanguageCodesPlain();
    assert "Unknown"[0] == 'U';
    NotPlainNotKey(LanguageCodes, "Unknown");
  }

  lemma NotPlainNotKey(table: Table, name: string)
    requires PlainNames(table) && !PlainName(name)
    ensures name !in Keys(table)
  {
  }

  /** Codes are at most three characters long, so the placeholders "auto" and
      "auto-detected" never name a language. */
  lemma AutoHasNoName()
    ensures DetectedLanguageName("auto") == "Unknown"
    ensures DetectedLanguageName("auto-detected") == "Unknown"
  {
    LanguageCodesWellFormed();
  }
}
