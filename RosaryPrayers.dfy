/**
 * The selection logic of the prayer provider: which mystery set to suggest for a
 * day, which Hail Mary to say in the opening prayers, and which title array a
 * mystery type names.  The calendar is read by the caller and passed in; the
 * texts themselves live in resources and are represented by their keys.
 */
module RosaryPrayers {
  import opened Optional
  import opened Text
  import opened PrayerStructure

  // java.util.Calendar day-of-week constants.
  const Sunday: int := 1
  const Monday: int := 2
  const Tuesday: int := 3
  const Wednesday: int := 4
  const Thursday: int := 5
  const Friday: int := 6
  const Saturday: int := 7

  // java.util.Calendar month constants used here (January is 0).
  const January: int := 0
  const February: int := 1
  const March: int := 2
  const December: int := 11

  /** The four mystery sets, named by their title arrays in resources. */
  datatype MysterySet = Joyful | Luminous | Sorrowful | Glorious

  /** The mystery type strings the application uses. */
  const KnownMysteryTypes: set<string> := {"joyful", "luminous", "sorrowful", "glorious"}

  /** The traditional mystery set of a weekday; on Sunday it follows the season. */
  function SuggestedMysteryForToday(dayOfWeek: int, month: int): (r: string)
    ensures r in KnownMysteryTypes
  {
    if dayOfWeek == Monday then "joyful"
    else if dayOfWeek == Tuesday then "sorrowful"
    else if dayOfWeek == Wednesday then "glorious"
    else if dayOfWeek == Thursday then "luminous"
    else if dayOfWeek == Friday then "sorrowful"
    else if dayOfWeek == Saturday then "joyful"
    else if dayOfWeek == Sunday then
      if month == December || month == January then "joyful"        // Advent and Christmas
      else if month == February || month == March then "sorrowful"  // roughly Lent
      else "glorious"
    else "joyful"
  }

  /**
   * The Hail Mary of the opening prayers at a position: faith, hope and charity for
   * 1, 2 and 3, which are exactly the types the table puts at positions 4, 5 and 6;
   * any other position falls back to the plain Hail Mary.
   */
  function HailMaryForIntro(position: int): (r: int)
    ensures 1 <= position <= 3 ==> r == PrayerTypeForCount(position + 3)
    ensures !(1 <= position <= 3) ==> r == PrayerHailMary
  {
    if position == 1 then PrayerHailMaryFaith
    else if position == 2 then PrayerHailMaryHope
    else if position == 3 then PrayerHailMaryCharity
    else PrayerHailMary
  }

  /** The title array for a mystery type, or None for the empty array. */
  function MysteryTitles(mysteryType: Option<string>): (r: Option<MysterySet>)
    ensures r.Some? <==> mysteryType.Some? && ToLowerCase(mysteryType.value) in KnownMysteryTypes
  {
    match mysteryType
    case None => None
    case Some(t) =>
      var key := ToLowerCase(t);
      if key == "joyful" then Some(Joyful)
      else if key == "luminous" then Some(Luminous)
      else if key == "sorrowful" then Some(Sorrowful)
      else if key == "glorious" then Some(Glorious)
      else None
  }

  // ---------------------------------------------------------------------------
  // Properties of the suggestion and the title lookup

  /** Each known mystery type string selects its own mystery set. */
  lemma KnownTypeSelectsItsSet(mysteryType: string)
    requires mysteryType in KnownMysteryTypes
    ensures MysteryTitles(Some(mysteryType)) ==
      Some(if mysteryType == "joyful" then Joyful
           else if mysteryType == "luminous" then Luminous
           else if mysteryType == "sorrowful" then Sorrowful
           else Glorious)
  {
    if mysteryType == "joyful" {
      LowerCaseUnchanged("joyful");
    } else if mysteryType == "luminous" {
      LowerCaseUnchanged("luminous");
    } else if mysteryType == "sorrowful" {
      LowerCaseUnchanged("sorrowful");
    } else {
      LowerCaseUnchanged("glorious");
    }
  }

  /** Every suggestion names a mystery set that has titles. */
  lemma SuggestionHasTitles(dayOfWeek: int, month: int)
    ensures MysteryTitles(Some(SuggestedMysteryForToday(dayOfWeek, month))).Some?
  {
    KnownTypeSelectsItsSet(SuggestedMysteryForToday(dayOfWeek, month));
  }

  /** The title lookup ignores letter case. */
  lemma {:induction false} TitlesIgnoreCase(mysteryType: string)
    ensures MysteryTitles(Some(mysteryType)) == MysteryTitles(Some(ToLowerCase(mysteryType)))
  {
    ToLowerCaseIdempotent(mysteryType);
  }

  /** Only Sunday's suggestion depends on the month. */
  lemma WeekdaysIgnoreMonth(dayOfWeek: int, month1: int, month2: int)
    requires dayOfWeek != Sunday
    ensures SuggestedMysteryForToday(dayOfWeek, month1) == SuggestedMysteryForToday(dayOfWeek, month2)
  {
  }

  /**
   * The weekday schedule: joyful on Monday and Saturday, sorrowful on Tuesday and
   * Friday, glorious on Wednesday, luminous on Thursday, and joyful for a day number
   * outside the week.
   */
  lemma WeekdaySuggestions(month: int)
    ensures SuggestedMysteryForToday(Monday, month) == "joyful"
    ensures SuggestedMysteryForToday(Tuesday, month) == "sorrowful"
    ensures SuggestedMysteryForToday(Wednesday, month) == "glorious"
    ensures SuggestedMysteryForToday(Thursday, month) == "luminous"
    ensures SuggestedMysteryForToday(Friday, month) == "sorrowful"
    ensures SuggestedMysteryForToday(Saturday, month) == "joyful"
    ensures forall day :: !(Sunday <= day <= Saturday) ==> SuggestedMysteryForToday(day, month) == "joyful"
  {
  }

  /** The luminous mysteries are suggested on Thursdays and on no other day. */
  lemma LuminousOnlyOnThursday(dayOfWeek: int, month: int)
    ensures SuggestedMysteryForToday(dayOfWeek, month) == "luminous" <==> dayOfWeek == Thursday
  {
  }

  /** Sunday follows the season: joyful in December and January, sorrowful in February and March, glorious otherwise. */
  lemma SundayFollowsSeason(month: int)
    ensures SuggestedMysteryForToday(Sunday, month) ==
      if month in {December, January} then "joyful"
      else if month in {February, March} then "sorrowful"
      else "glorious"
  {
  }
}
