/** The language-name to file-extension table of the bundle command. */
module Languages {

  /** The three names the table renames; every other name is its own extension. */
  const RenamedLanguages: set<string> := {"csharp", "javascript", "asembler"}

  /** ConvertLanguage: `csharp`, `javascript` and `asembler` (spelled so) map
      to `cs`, `js` and `asn`; every other token, the identity entries of the
      table among them, is returned unchanged. */
  function ConvertLanguage(language: string): (extension: string)
    ensures language == "csharp" ==> extension == "cs"
    ensures language == "javascript" ==> extension == "js"
    ensures language == "asembler" ==> extension == "asn"
    ensures language !in RenamedLanguages ==> extension == language
    ensures extension !in RenamedLanguages
  {
    if language == "csharp" then "cs"
    else if language == "cpp" then "cpp"
    else if language == "html" then "html"
    else if language == "asembler" then "asn"
    else if language == "sql" then "sql"
    else if language == "css" then "css"
    else if language == "javascript" then "js"
    else language
  }

  /** An extension is never renamed again: converting twice is converting once. */
  lemma ConvertLanguageIdempotent(language: string)
    ensures ConvertLanguage(ConvertLanguage(language)) == ConvertLanguage(language)
  {
  }

  /** The table changes a token exactly when it is one of the three renamed names. */
  lemma ConvertLanguageChanges(language: string)
    ensures ConvertLanguage(language) != language <==> language in RenamedLanguages
  {
  }
}
