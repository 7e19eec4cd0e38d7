/** What an experience card shows (src/components/molecules/ExperienceCard.tsx):
    the formatting locale, the translation keys, the date line and the
    current badge. */
module ExperienceCard {
  import opened Wrappers
  import opened Format
  import opened ItemKeys

  /** The fields of an experience the card reads; an absent end date is None. */
  datatype Experience = Experience(id: string, startDate: string, endDate: Option<string>,
                                   current: bool)

  /** localeMap, from the site locale to the formatting locale. */
  function LocaleMap(): map<string, string> {
    map["en" := "en-US", "es" := "es-ES", "fr" := "fr-FR", "pt" := "pt-PT", "ca" := "ca-ES"]
  }

  /** localeMap[currentLocale] || 'es-ES'. */
  function FormattingLocale(currentLocale: string): (tag: string)
    ensures currentLocale in LocaleMap() ==> tag == LocaleMap()[currentLocale]
    ensures currentLocale !in LocaleMap() ==> tag == "es-ES"
  {
    var m := LocaleMap();
    if currentLocale in m && m[currentLocale] != "" then m[currentLocale] else DefaultLocale
  }

  /** Every locale of the site maps to its regional tag; anything else
      falls back to Spanish. */
  lemma FormattingLocaleTable()
    ensures FormattingLocale("en") == "en-US"
    ensures FormattingLocale("es") == "es-ES"
    ensures FormattingLocale("fr") == "fr-FR"
    ensures FormattingLocale("pt") == "pt-PT"
    ensures FormattingLocale("ca") == "ca-ES"
    ensures FormattingLocale("de") == "es-ES"
  {
  }

  /** The end of the date line: the formatted end date when there is one
      other than 'present', otherwise the translated word for "present". */
  function EndLabel(endDate: Option<string>, presentText: string, locale: string,
                    intl: DateFormatter): (r: string)
    ensures (endDate.Some? && endDate.value != "" && endDate.value != "present") ==>
              r == FormatDate(endDate.value, locale, intl)
    ensures !(endDate.Some? && endDate.value != "" && endDate.value != "present") ==>
              r == presentText
  {
    if endDate.Some? && endDate.value != "" && endDate.value != "present"
    then FormatDate(endDate.value, locale, intl) else presentText
  }

  /** An end date spelled 'Present' is not the word the card tests for:
      it reaches formatDate, which returns it untranslated. */
  lemma CapitalisedPresentIsNotTranslated(presentText: string, locale: string, intl: DateFormatter)
    ensures EndLabel(Some("Present"), presentText, locale, intl) == "Present"
    ensures EndLabel(Some("present"), presentText, locale, intl) == presentText
    ensures EndLabel(None, presentText, locale, intl) == presentText
  {
  }

  /** The rendered parts of the card. */
  datatype CardView = CardView(companyKey: string, positionKey: string, descriptionKey: string,
                               dateLine: string, currentBadge: bool)

  function Render(e: Experience, currentLocale: string, presentText: string,
                  intl: DateFormatter): (v: CardView)
    ensures v.currentBadge <==> e.current
    ensures v.companyKey == FieldKey(e.id, "company")
    ensures v.positionKey == FieldKey(e.id, "position")
    ensures v.descriptionKey == FieldKey(e.id, "description")
    ensures '-' !in v.companyKey && '-' !in v.positionKey && '-' !in v.descriptionKey
    ensures var locale := FormattingLocale(currentLocale);
            v.dateLine == FormatDate(e.startDate, locale, intl) + " - "
                          + EndLabel(e.endDate, presentText, locale, intl)
  {
    var locale := FormattingLocale(currentLocale);
    CardView(FieldKey(e.id, "company"), FieldKey(e.id, "position"), FieldKey(e.id, "description"),
             FormatDate(e.startDate, locale, intl) + " - " + EndLabel(e.endDate, presentText, locale, intl),
             e.current)
  }
}
