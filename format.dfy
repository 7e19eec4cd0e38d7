/** Text formatting helpers (src/utils/format.ts): date labels, truncation
    and capitalisation. */
module Format {
  import opened Wrappers
  import opened Text

  /** The month-and-year rendering of a date for a locale that
      Intl.DateTimeFormat performs, together with its String(date) fallback
      when formatting throws. It lies outside the model and is passed in. */
  type DateFormatter = (string, string) -> string

  /** The default locale tag of formatDate and formatDateRange. */
  const DefaultLocale := "es-ES"

  /** formatDate: the words 'present' and 'Present' are returned as they
      are; every other date goes to the formatter. */
  function FormatDate(date: string, locale: string, intl: DateFormatter): (r: string)
    ensures (date == "present" || date == "Present") ==> r == date
    ensures !(date == "present" || date == "Present") ==> r == intl(date, locale)
  {
    if date == "present" || date == "Present" then date else intl(date, locale)
  }

  /** formatDateRange: the formatted start, " - ", then the formatted end,
      or 'Present' when the end date is missing or empty. */
  function FormatDateRange(startDate: string, endDate: Option<string>, locale: string,
                           intl: DateFormatter): (r: string)
    ensures var start := FormatDate(startDate, locale, intl);
            && |r| >= |start| + 3
            && r[..|start| + 3] == start + " - "
    ensures (endDate == None || endDate == Some("")) ==>
              r == FormatDate(startDate, locale, intl) + " - Present"
    ensures (endDate.Some? && endDate.value != "") ==>
              r == FormatDate(startDate, locale, intl) + " - " + FormatDate(endDate.value, locale, intl)
  {
    var start := FormatDate(startDate, locale, intl);
    var end := if endDate.Some? && endDate.value != "" then FormatDate(endDate.value, locale, intl)
               else "Present";
    var r := start + " - " + end;
    assert r[..|start| + 3] == start + " - ";
    r
  }

  /** An end date spelled 'present' is kept in lower case, while a missing
      one reads 'Present': the two labels differ. */
  lemma PresentSpellings(startDate: string, locale: string, intl: DateFormatter)
    ensures var start := FormatDate(startDate, locale, intl);
            && FormatDateRange(startDate, Some("present"), locale, intl) == start + " - present"
            && FormatDateRange(startDate, None, locale, intl) == start + " - Present"
  {
  }

  /** The end index of text.slice(0, maxLength). */
  function SliceEnd(len: nat, maxLength: int): (e: nat)
    ensures e <= len
    ensures maxLength >= 0 ==> e == if maxLength < len then maxLength else len
    ensures maxLength < 0 ==> e == if len + maxLength < 0 then 0 else len + maxLength
  {
    if maxLength >= 0 then (if maxLength < len then maxLength else len)
    else if len + maxLength < 0 then 0 else len + maxLength
  }

  /** truncateText: text itself when it fits in maxLength characters,
      otherwise its first maxLength characters, trimmed, followed by "...". */
  function TruncateText(text: string, maxLength: int): (r: string)
    ensures |text| <= maxLength ==> r == text
    ensures |text| > maxLength ==>
              r == Trim(text[..SliceEnd(|text|, maxLength)]) + "..."
  {
    if |text| <= maxLength then text
    else Trim(text[..SliceEnd(|text|, maxLength)]) + "..."
  }

  /** A truncated text ends in "..." and is at most three characters longer
      than the limit; what precedes the dots is taken from the text's start. */
  lemma TruncateBounds(text: string, maxLength: nat)
    requires |text| > maxLength
    ensures var r := TruncateText(text, maxLength);
            && |r| <= maxLength + 3
            && r[|r| - 3..] == "..."
            && r[..|r| - 3] == Trim(text[..maxLength])
  {
    var r := TruncateText(text, maxLength);
    assert r == Trim(text[..maxLength]) + "...";
  }

  /** capitalizeFirstLetter: "" stays "", otherwise the first character is
      upper-cased and the rest lower-cased. */
  function CapitalizeFirstLetter(text: string): (r: string)
    ensures |r| == |text|
    ensures text != [] ==> r[0] == UpperChar(text[0])
    ensures forall i :: 1 <= i < |text| ==> r[i] == LowerChar(text[i])
  {
    if text == [] then [] else Upper([text[0]]) + Lower(text[1..])
  }

  /** Capitalising twice is the same as capitalising once. */
  lemma {:induction false} CapitalizeIdempotent(text: string)
    ensures CapitalizeFirstLetter(CapitalizeFirstLetter(text)) == CapitalizeFirstLetter(text)
  {
    var once := CapitalizeFirstLetter(text);
    var twice := CapitalizeFirstLetter(once);
    if text != [] {
      forall i | 0 <= i < |text| ensures twice[i] == once[i] {
        if i == 0 {
          UpperIdempotent(text[0]);
        } else {
          LowerIdempotent(text[i]);
        }
      }
    }
  }

  lemma UpperIdempotent(c: char)
    ensures UpperChar(UpperChar(c)) == UpperChar(c)
  {
  }

  lemma LowerIdempotent(c: char)
    ensures LowerChar(LowerChar(c)) == LowerChar(c)
  {
  }
}
