/** The table of languages the translator accepts, and the lookup that
    resolves a user's spelling of a language to its table entry
    (`SUPPORTED_LANGUAGES` and `find_lang` in src/lib.rs). */
module Languages {
  import opened Wrappers

  /** A table entry: the language's long name and its short code. */
  type LangInfo = (string, string)

  /** The 102 supported languages, in the order the source lists them. */
  const SupportedLanguages: seq<LangInfo> := [
    ("Afrikaans", "af"), ("Hmong", "hmn"), ("Polish", "pl"),
    ("Albanian", "sq"), ("Hungarian", "hu"), ("Portuguese", "pt"),
    ("Amharic", "am"), ("Icelandic", "is"), ("Punjabi", "pa"),
    ("Arabic", "ar"), ("Igbo", "ig"), ("Romanian", "ro"),
    ("Armenian", "hy"), ("Indonesian", "id"), ("Russian", "ru"),
    ("Azeerbaijani", "az"), ("Irish", "ga"), ("Samoan", "sm"),
    ("Basque", "eu"), ("Italian", "it"), ("Scots_Gaelic", "gd"),
    ("Belarusian", "be"), ("Japanese", "ja"), ("Serbian", "sr"),
    ("Bengali", "bn"), ("Javanese", "jw"), ("Sesotho", "st"),
    ("Bosnian", "bs"), ("Kannada", "kn"), ("Shona", "sn"),
    ("Bulgarian", "bg"), ("Kazakh", "kk"), ("Sindhi", "sd"),
    ("Catalan", "ca"), ("Khmer", "km"), ("Sinhala", "si"),
    ("Cebuano", "ceb"), ("Korean", "ko"), ("Slovak", "sk"),
    ("Corsican", "co"), ("Kurdish", "ku"), ("Slovenian", "sl"),
    ("Croatian", "hr"), ("Kyrgyz", "ky"), ("Somali", "so"),
    ("Czech", "cs"), ("Lao", "lo"), ("Spanish", "es"),
    ("Danish", "da"), ("Latin", "la"), ("Sundanese", "su"),
    ("Dutch", "nl"), ("Latvian", "lv"), ("Swahili", "sw"),
    ("English", "en"), ("Lithuanian", "lt"), ("Swedish", "sv"),
    ("Esperanto", "eo"), ("Luxembourgish", "lb"), ("Tagalog", "tl"),
    ("Estonian", "et"), ("Macedonian", "mk"), ("Tajik", "tg"),
    ("Finnish", "fi"), ("Malagasy", "mg"), ("Tamil", "ta"),
    ("French", "fr"), ("Malay", "ms"), ("Telugu", "te"),
    ("Frisian", "fy"), ("Malayalam", "ml"), ("Thai", "th"),
    ("Galician", "gl"), ("Maltese", "mt"), ("Turkish", "tr"),
    ("Georgian", "ka"), ("Maori", "mi"), ("Ukrainian", "uk"),
    ("German", "de"), ("Marathi", "mr"), ("Urdu", "ur"),
    ("Greek", "el"), ("Mongolian", "mn"), ("Uzbek", "uz"),
    ("Gujarati", "gu"), ("Myanmar", "my"), ("Vietnamese", "vi"),
    ("Haitian_Creole", "ht"), ("Nepali", "ne"), ("Welsh", "cy"),
    ("Hausa", "ha"), ("Norwegian", "no"), ("Xhosa", "xh"),
    ("Hawaiian", "haw"), ("Nyanja", "ny"), ("Yiddish", "yi"),
    ("Hebrew", "he"), ("Pashto", "ps"), ("Yoruba", "yo"),
    ("Hindi", "hi"), ("Persian", "fa"), ("Zulu", "zu")
  ]

  /** Lower-cases one character: the ASCII capitals map to their small
      letters, every other character is kept. */
  function LowerChar(c: char): (r: char)
    ensures 'A' <= c <= 'Z' ==> r as int == c as int + 32
    ensures !('A' <= c <= 'Z') ==> r == c
  {
    if 'A' <= c <= 'Z' then (c as int + 32) as char else c
  }

  /** `str::to_lowercase`, character by character. */
  function Lower(s: string): (r: string)
    ensures |r| == |s|
    ensures forall i :: 0 <= i < |s| ==> r[i] == LowerChar(s[i])
  {
    if s == [] then [] else [LowerChar(s[0])] + Lower(s[1..])
  }

  /** The test `find_lang` applies to each entry, given the already
      lower-cased input: the entry's name, lower-cased, equals it, or the
      entry's code equals it as it stands. */
  predicate Matches(lowered: string, info: LangInfo) {
    lowered == Lower(info.0) || lowered == info.1
  }

  /** The index of the first entry of `table` at or after `from` that
      matches `lowered`, or None when no entry from there on matches. */
  function FirstMatchFrom(table: seq<LangInfo>, lowered: string, from: nat): (r: Option<nat>)
    requires from <= |table|
    ensures r.Some? ==> from <= r.value < |table| && Matches(lowered, table[r.value])
    ensures r.Some? ==> forall j :: from <= j < r.value ==> !Matches(lowered, table[j])
    ensures r.None? ==> forall j :: from <= j < |table| ==> !Matches(lowered, table[j])
    decreases |table| - from
  {
    if from == |table| then None
    else if Matches(lowered, table[from]) then Some(from)
    else FirstMatchFrom(table, lowered, from + 1)
  }

  /** What `find_lang(lang)` returns: the first supported language whose
      name or code matches `lang` regardless of case, or None. */
  function LookupLang(lang: string): (r: Option<LangInfo>)
    ensures r.Some? ==> exists i :: 0 <= i < |SupportedLanguages| && SupportedLanguages[i] == r.value
                          && Matches(Lower(lang), SupportedLanguages[i])
                          && forall j :: 0 <= j < i ==> !Matches(Lower(lang), SupportedLanguages[j])
    ensures r.None? <==> forall j :: 0 <= j < |SupportedLanguages| ==> !Matches(Lower(lang), SupportedLanguages[j])
  {
    match FirstMatchFrom(SupportedLanguages, Lower(lang), 0)
    case Some(i) => Some(SupportedLanguages[i])
    case None => None
  }

  /** The loop of `find_lang` over a table: the index of the first entry
      that matches, found by scanning in order and stopping there. */
  method ScanTable(table: seq<LangInfo>, lowered: string) returns (r: Option<nat>)
    ensures r == FirstMatchFrom(table, lowered, 0)
  {
    var i := 0;
    while i < |table|
      invariant 0 <= i <= |table|
      invariant forall j :: 0 <= j < i ==> !Matches(lowered, table[j])
    {
      var info := table[i];
      if lowered == Lower(info.0) || lowered == info.1 {
        return Some(i);
      }
      i := i + 1;
    }
    return None;
  }

  /** `find_lang`: lower-cases the input once and scans the supported
      languages with it. */
  method FindLang(lang: string) returns (r: Option<LangInfo>)
    ensures r == LookupLang(lang)
  {
    var found := ScanTable(SupportedLanguages, Lower(lang));
    if found.Some? {
      r := Some(SupportedLanguages[found.value]);
    } else {
      r := None;
    }
  }

  /** Lower-casing twice is lower-casing once. */
  lemma {:induction false} LowerIdempotent(s: string)
    ensures Lower(Lower(s)) == Lower(s)
  {
    if s != [] {
      LowerIdempotent(s[1..]);
    }
  }

  /** The lookup ignores case: any spelling with the same lower-case form,
      and in particular the lower-cased input itself, finds the same entry. */
  lemma LookupIgnoresCase(a: string, b: string)
    requires Lower(a) == Lower(b)
    ensures LookupLang(a) == LookupLang(b)
    ensures LookupLang(Lower(a)) == LookupLang(a)
  {
    LowerIdempotent(a);
  }
}
