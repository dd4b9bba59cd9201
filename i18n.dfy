/** The language preference of lib/i18n/types.ts: the `Language` union, of
    which `SupportedLanguage` is the part with its own translation table. */
module I18n {
  import opened Wrappers
  import opened Json

  datatype Language = System | Ko | En | Ja

  /** The languages that have a translation table (every one but `system`). */
  type SupportedLanguage = l: Language | l != System witness Ko

  /** The string literal of each member of the union. */
  function Code(l: Language): string {
    match l
    case System => "system"
    case Ko => "ko"
    case En => "en"
    case Ja => "ja"
  }

  /** Membership of a raw string in `["system", "ko", "en", "ja"]`, giving
      the member it names. */
  function ParseLanguage(s: string): (r: Option<Language>)
    ensures r.Some? ==> Code(r.value) == s
    ensures r.None? ==> forall l: Language :: Code(l) != s
  {
    if s == "system" then Some(System)
    else if s == "ko" then Some(Ko)
    else if s == "en" then Some(En)
    else if s == "ja" then Some(Ja)
    else None
  }

  /** Membership of a raw JSON value in the list: `includes` compares with
      strict equality, so only strings can be members. */
  function LanguageOf(j: Json): (r: Option<Language>)
    ensures r.Some? <==> j.JStr? && ParseLanguage(j.s).Some?
    ensures r.Some? ==> j == JStr(Code(r.value))
  {
    if j.JStr? then ParseLanguage(j.s) else None
  }
}
