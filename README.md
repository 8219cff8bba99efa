# OpenRosary sequencer in Dafny

This project models the part of OpenRosary that sequences a recitation of the rosary.

A recitation has 80 positions:
- 2 introductory prayers;
- 5 first prayers;
- five decades of 14 prayers each (announcement, Our Father, ten Hail Marys, Glory Be, Fatima prayer);
- 3 concluding prayers.

The model has five parts:

- `PrayerStructure` (PrayerStructure.dfy) is the position table. It is a pure map from an absolute position, clamped to 1..80, to a prayer type, a decade, a mystery index and a Hail Mary number.
- `Rosary` (RosaryState.dfy) is the incremental cursor `RosaryState`. It is a class whose `Advance` and `GoBack` methods update `stage`, `prayerCount`, `mysteryIndex`, `decadeCount` and `isComplete` in place.
  - `TotalCount` maps the cursor back to a position.
  - Every step is proved against the table, with these exceptions:
    - `Advance` moves to the next position and shows the prayer the table puts there. Once complete it stays put. Without resources, a step inside the decades or into them keeps the position.
    - `GoBack` moves one position back and shows the prayer the table puts at the position after it. At position 0 it stays, and from the completed position 80 it lands on 78.
  - Re-entering `advance` after each stage or decade rollover terminates because of the measure `Rollover`.
  - The file also holds the pure helpers over the same arithmetic: the bead-transition test, the label switch, the decade calculation and the announcement position.
- `Navigation` (MainActivity.dfy) is the counting logic of the main screen. It covers:
  - a fresh start or a restore by replaying the saved count;
  - saving the count;
  - the guards around a swipe forward or back.
- `UpdateChecker` (UpdateChecker.dfy) is the dotted-version comparison of the update checker.
- `RosaryPrayers` (RosaryPrayers.dfy) is the daily mystery suggestion, the choice of Hail Mary in the opening prayers and the mystery-type switch of the title lookup.

`Text` (Text.dfy) supplies the few `String` operations used, and `Optional` (Optional.dfy) an option type.

## Design notes

Prayer texts and labels are represented by what they name, not by their wording:
- a `Shown` value is a prayer type, a mystery announcement of a decade, or one of the fixed messages;
- `advance` announces a mystery with its title and its description (`Announcement`), while `goBack` shows the title only (`AnnouncementTitle`);
- a `Label` is a title resource, possibly with a number.

Whether the Android resource context is set is the parameter `resourcesAvailable`.

The cursor's counters, taken as a value, are a `Cursor`. The specifications of the two steps are predicates on the cursor before and after:
- `Stepped` for `advance`;
- `SteppedBack` for `goBack`.

The class invariant is `WellFormed`. The lemmas `AheadIsSettled` and `BehindIsSettledBack` show that after a step forward, or after a step back, the position alone determines the whole cursor.

## Model

| member | source | states |
|---|---|---|
| PrayerStructure.PrayerTypeForCount | app/src/main/java/com/openrosary/app/PrayerStructure.java:73-111 | every position gets a type in 0..11, so the type is always a valid index into the title table |
| PrayerStructure.TitleResourceId | app/src/main/java/com/openrosary/app/PrayerStructure.java:118-123 | the generic fallback is used exactly for out-of-range types; any other type gets its entry of the title table |
| PrayerStructure.DecadeForCount | app/src/main/java/com/openrosary/app/PrayerStructure.java:130-137 | the decade is (n-8)/14+1 on positions 8..77 and 0 elsewhere, always within 0..5 |
| PrayerStructure.HailMaryNumber | app/src/main/java/com/openrosary/app/PrayerStructure.java:144-153 | the Hail Mary number lies in 0..10 |
| PrayerStructure.MysteryIndex | app/src/main/java/com/openrosary/app/PrayerStructure.java:160-163 | the mystery index is the decade less one, within -1..4 |
| PrayerStructure.PrayerTypeClamps | app/src/main/java/com/openrosary/app/PrayerStructure.java:74-76 | a position below 1 reads as 1, and one above 80 reads as 80 |
| PrayerStructure.FixedSegments | app/src/main/java/com/openrosary/app/PrayerStructure.java:78-91 | positions 1-7 and 78-80 hold the opening, first and concluding prayers in order |
| PrayerStructure.DecadeLayout | app/src/main/java/com/openrosary/app/PrayerStructure.java:93-110 | inside the decades, offset (n-8)%14 decides the type: 0 announcement, 1 Our Father, 2..11 Hail Mary, 12 Glory Be, 13 Fatima, in both directions |
| PrayerStructure.HailMaryNumberMatchesType | app/src/main/java/com/openrosary/app/PrayerStructure.java:144-153 | the number is in 1..10 exactly at decade Hail Marys, and 0 everywhere else |
| PrayerStructure.AnnouncementHasDecade | app/src/main/java/com/openrosary/app/PrayerStructure.java:130-137 | an announcement lies in a decade 1..5 with a mystery 0..4, at position 8+14(d-1) |
| PrayerStructure.Periodicity | app/src/main/java/com/openrosary/app/PrayerStructure.java:93-153 | 14 positions later there is the same type and Hail Mary number, in the next decade |
| PrayerStructure.NoHailMaryBeforeDecades | app/src/main/java/com/openrosary/app/PrayerStructure.java:78-85 | no decade Hail Mary comes before position 8 |
| PrayerStructure.HailMarysBefore | app/src/main/java/com/openrosary/app/PrayerStructure.java:93-110 | the Hail Marys before position n are ten per finished decade plus those already said in the current one |
| PrayerStructure.NoHailMaryInConclusion | app/src/main/java/com/openrosary/app/PrayerStructure.java:88-91 | the concluding prayers add no decade Hail Mary |
| PrayerStructure.FiftyHailMarys | app/src/main/java/com/openrosary/app/PrayerStructure.java:73-111 | positions 1..80 hold exactly fifty decade Hail Marys |
| PrayerStructure.HailMaryNumberIsRunningCount | app/src/main/java/com/openrosary/app/PrayerStructure.java:144-153 | a Hail Mary's number is the running count of Hail Marys less ten per earlier decade, so each decade numbers them 1..10 in order |
| PrayerStructure.TenPerDecade | app/src/main/java/com/openrosary/app/PrayerStructure.java:93-110 | each decade holds exactly ten Hail Marys |
| Rosary.TotalCountOf | app/src/main/java/com/openrosary/app/RosaryState.java:692-737 | on every well-formed cursor the count lies in 0..80, and it is 80 exactly when complete |
| Rosary.Settled | app/src/main/java/com/openrosary/app/RosaryState.java:365-534 | for each position 0..80 there is a well-formed cursor that counts to it and that sits past its prayer, as `advance` leaves it |
| Rosary.SettledBack | app/src/main/java/com/openrosary/app/RosaryState.java:137-201 | for each position 0..78 there is a well-formed, incomplete cursor that counts to it and stands before its prayer, as `goBack` leaves it |
| Rosary.DecadePosition | app/src/main/java/com/openrosary/app/RosaryState.java:431-495 | the counter of a decade and the table agree: counter p of mystery mi is position 8+14mi+p, which is in decade mi+1 and holds the prayer for offset p |
| Rosary.DecadeStepped | app/src/main/java/com/openrosary/app/RosaryState.java:431-495 | a decade step that raises the counter by one and shows the announcement, Our Father, Hail Mary, Glory Be or Fatima prayer for that counter is a correct step forward |
| Rosary.AheadIsSettled | app/src/main/java/com/openrosary/app/RosaryState.java:692-737 | a well-formed cursor past its prayer is fully determined by its count |
| Rosary.BehindIsSettledBack | app/src/main/java/com/openrosary/app/RosaryState.java:692-737 | a well-formed cursor before its prayer is fully determined by its count, which is at most 78 |
| Rosary.StateTextMatchesTable | app/src/main/java/com/openrosary/app/RosaryState.java:203-262 | the text `goBack` reads from stage and counter is what the table puts at the next position, with an announcement's title but not its description; without titles or resources the announcement becomes "Mystery d" |
| Rosary.BackStepped | app/src/main/java/com/openrosary/app/RosaryState.java:137-269 | moving to the back target and showing the cursor's text is a correct step back |
| Rosary.SettledMatchesTable | app/src/main/java/com/openrosary/app/RosaryState.java:431-495 | on a decade position the cursor's decade and mystery are the table's, and its counter less two is the table's Hail Mary number |
| Rosary.StateText | app/src/main/java/com/openrosary/app/RosaryState.java:203-263 | `goBack`'s text never reports an error and never includes a description; the completion title appears exactly in the completed state; an announcement title needs resources and titles and carries the cursor's decade; a cursor before its prayer always has a non-empty text |
| Rosary.IsBeadTypeTransition | app/src/main/java/com/openrosary/app/RosaryState.java:760-807 | a bead transition can only happen at counters 0, 2, 5 and 12, and never in the completed state |
| Rosary.BeadTransitionCases | app/src/main/java/com/openrosary/app/RosaryState.java:760-807 | in a decade the test holds exactly at counters 2 and 12 in either direction; otherwise only Intro 2 and FirstPrayers 5 going forward, and FirstPrayers 0 and Conclusion 0 going back; the branches at lines 789 and 799 decide nothing |
| Rosary.PrayerLabelByTotalCount | app/src/main/java/com/openrosary/app/RosaryState.java:1115-1226 | the generic "Prayer" label appears exactly when resources are missing; Hail Mary labels are numbered 1..10, mystery labels 1..5, and no other label is numbered |
| Rosary.LabelsMatchTableOutsideDecades | app/src/main/java/com/openrosary/app/RosaryState.java:1124-1219 | the label switch gives the table's title for positions 1..7 and 78..80 |
| Rosary.LabelsMatchTableEarlyDecades | app/src/main/java/com/openrosary/app/RosaryState.java:1135-1166 | the label switch gives the table's title and number for positions 8..35 |
| Rosary.LabelsMatchTableThirdDecade | app/src/main/java/com/openrosary/app/RosaryState.java:1167-1182 | the label switch gives the table's title and number for positions 36..49 |
| Rosary.LabelsMatchTableFourthDecade | app/src/main/java/com/openrosary/app/RosaryState.java:1183-1198 | the label switch gives the table's title and number for positions 50..63 |
| Rosary.LabelsMatchTableLastDecade | app/src/main/java/com/openrosary/app/RosaryState.java:1199-1214 | the label switch gives the table's title and number for positions 64..77 |
| Rosary.LabelsMatchTable | app/src/main/java/com/openrosary/app/RosaryState.java:1115-1226 | after clamping, the label is the title of the table's type: Hail Marys carry their number and announcements their decade; without resources it is the generic "Prayer" |
| Rosary.CalculateMysteryDecade | app/src/main/java/com/openrosary/app/RosaryState.java:1233-1240 | the decade lies in 0..5 and is 0 exactly outside positions 8..77 |
| Rosary.MysteryDecadeMatchesTable | app/src/main/java/com/openrosary/app/RosaryState.java:1233-1240 | the half-open ranges give the table's decade at every position |
| Rosary.MysteryAnnouncementCount | app/src/main/java/com/openrosary/app/RosaryState.java:1314-1317 | announcement positions are 14 apart starting from 8, and they fall in 8..64 exactly for decades 1..5 |
| Rosary.AnnouncementCountIsAnnouncement | app/src/main/java/com/openrosary/app/RosaryState.java:1314-1317 | for decades 1..5 the computed position is an announcement, and it lies in that decade |
| Rosary.AnnouncementAtItsCount | app/src/main/java/com/openrosary/app/RosaryState.java:1314-1317 | every announcement sits at the position computed from its own decade |
| Rosary.RosaryState.TotalCount | app/src/main/java/com/openrosary/app/RosaryState.java:692-737 | a valid session's count lies in 0..80, `getMaxCount` |
| Rosary.RosaryState.constructor | app/src/main/java/com/openrosary/app/RosaryState.java:36-43 | a new session is in the introduction with counter 0, mystery 0 and decade 1, not complete, at position 0, with the titles its mystery type selects |
| Rosary.RosaryState.Advance | app/src/main/java/com/openrosary/app/RosaryState.java:110-131 | keeps the invariant. Once complete it shows "God bless you" and changes nothing. Without resources, a step into or inside the decades keeps the position. Otherwise the count rises by exactly one and the table's prayer for the new position is shown, an announcement with its title and description |
| Rosary.RosaryState.HandleIntroStage | app/src/main/java/com/openrosary/app/RosaryState.java:365-385 | the same step contract for the introduction, re-entering `advance` once after the Creed |
| Rosary.RosaryState.HandleFirstPrayersStage | app/src/main/java/com/openrosary/app/RosaryState.java:391-425 | the same step contract for the first prayers, with the Faith, Hope and Charity Hail Marys, re-entering `advance` once into the first decade |
| Rosary.RosaryState.HandleDecadeStage | app/src/main/java/com/openrosary/app/RosaryState.java:431-495 | the same step contract for a decade, with the announcement or its error message, re-entering `advance` once into the next decade or the conclusion |
| Rosary.RosaryState.HandleConclusionStage | app/src/main/java/com/openrosary/app/RosaryState.java:501-534 | the same step contract for the conclusion; the third prayer completes the session at position 80 |
| Rosary.RosaryState.GoBack | app/src/main/java/com/openrosary/app/RosaryState.java:137-269 | keeps the invariant. The count drops by one from 1..79 and stays at 0. From the completed position 80 it lands on 78. The cursor then stands before its prayer and shows the table's text for the next position, an announcement with its title only |
| Rosary.AdvanceThenGoBack | app/src/main/java/com/openrosary/app/RosaryState.java:110-269 | a step forward then back restores positions 0..78; from 79 and from 80 the pair ends at 78 |
| Rosary.GoBackThenAdvance | app/src/main/java/com/openrosary/app/RosaryState.java:110-269 | a step back then forward restores positions 1..79; 0 ends at 1 and 80 at 79 |
| Rosary.SettledDiffersAtStageStarts | app/src/main/java/com/openrosary/app/RosaryState.java:110-269 | on 0..78 the cursor `advance` leaves and the one `goBack` leaves differ exactly at positions 2, 7, 21, 35, 49, 63 and 77, where a stage or decade begins |
| RosaryPrayers.SuggestedMysteryForToday | app/src/main/java/com/openrosary/app/RosaryPrayers.java:312-346 | the suggestion is always one of the four known mystery types |
| RosaryPrayers.HailMaryForIntro | app/src/main/java/com/openrosary/app/RosaryPrayers.java:157-182 | positions 1..3 give exactly the Hail Mary the table puts at positions 4..6; any other position gives the plain Hail Mary |
| RosaryPrayers.MysteryTitles | app/src/main/java/com/openrosary/app/RosaryPrayers.java:233-265 | there is a title array exactly when the type is given and its lower case is a known type |
| RosaryPrayers.KnownTypeSelectsItsSet | app/src/main/java/com/openrosary/app/RosaryPrayers.java:241-253 | each known type selects its own mystery set |
| RosaryPrayers.SuggestionHasTitles | app/src/main/java/com/openrosary/app/RosaryPrayers.java:312-346 | every suggestion has titles |
| RosaryPrayers.TitlesIgnoreCase | app/src/main/java/com/openrosary/app/RosaryPrayers.java:241 | the lookup ignores letter case |
| RosaryPrayers.WeekdaySuggestions | app/src/main/java/com/openrosary/app/RosaryPrayers.java:317-345 | Monday and Saturday are joyful, Tuesday and Friday sorrowful, Wednesday glorious, Thursday luminous, and a day number outside the week is joyful |
| RosaryPrayers.WeekdaysIgnoreMonth | app/src/main/java/com/openrosary/app/RosaryPrayers.java:317-345 | only Sunday's suggestion depends on the month |
| RosaryPrayers.LuminousOnlyOnThursday | app/src/main/java/com/openrosary/app/RosaryPrayers.java:317-345 | luminous is suggested on Thursday and on no other day |
| RosaryPrayers.SundayFollowsSeason | app/src/main/java/com/openrosary/app/RosaryPrayers.java:330-342 | Sunday is joyful in December and January, sorrowful in February and March, glorious otherwise |
| Navigation.AdvanceSettled | app/src/main/java/com/openrosary/app/MainActivity.java:419-421 | one step of the replay moves a settled session to the next settled position, or leaves it at 80 |
| Navigation.Replay | app/src/main/java/com/openrosary/app/MainActivity.java:419-421 | k steps from a fresh session reach position k, so the 80th step completes the session; past 80 it stays complete at 80, and a negative k leaves it at 0 |
| Navigation.StartSession | app/src/main/java/com/openrosary/app/MainActivity.java:408-441 | a fresh start and a saved count of 0 reach position 1; any other saved count s reaches the position s clamped to 0..80 and displays s |
| Navigation.MainActivity.OnCreate | app/src/main/java/com/openrosary/app/MainActivity.java:397-449 | the mystery type comes from the saved state, else from a non-empty intent extra, else "joyful". The positions reached are those of `StartSession` |
| Navigation.MainActivity.OnSaveInstanceState | app/src/main/java/com/openrosary/app/MainActivity.java:475-481 | saves the mystery type and the current count |
| Navigation.MainActivity.AdvanceRosary | app/src/main/java/com/openrosary/app/MainActivity.java:724-798 | a complete session only shows the completion dialog. Otherwise `advance` is called once, the count rises by one and the new position is displayed. The "just completed" branch at line 754 is shown to be unreachable |
| Navigation.MainActivity.PreviousRosary | app/src/main/java/com/openrosary/app/MainActivity.java:634-668 | nothing happens at position 1 or below. Otherwise position count-1 is displayed and `goBack` is called once; from 80 the session lands on 78 while 79 is displayed |
| Navigation.SaveAndRecreate | app/src/main/java/com/openrosary/app/MainActivity.java:410-481 | saving and recreating resumes at the same position, from 1 on, with the same type. The stage and counter may differ only at the start of a stage |
| UpdateChecker.ParseInt | app/src/main/java/com/openrosary/app/UpdateChecker.java:154-155 | a component parses exactly when it is a non-empty run of decimal digits |
| UpdateChecker.StripV | app/src/main/java/com/openrosary/app/UpdateChecker.java:134-135 | a single leading 'v' is removed, and anything else is left alone |
| UpdateChecker.IsNewVersionAvailable | app/src/main/java/com/openrosary/app/UpdateChecker.java:129-178 | the answer is the comparison specification: no pre-release is new, the first differing component decides, and an unparsable component reached first gives false |
| UpdateChecker.CompareParts | app/src/main/java/com/openrosary/app/UpdateChecker.java:151-170 | the loop computes the component-by-component comparison, with missing components read as 0 |
| UpdateChecker.PreReleaseIsNeverNew | app/src/main/java/com/openrosary/app/UpdateChecker.java:140-143 | a pre-release latest version is never an update |
| UpdateChecker.Irreflexive | app/src/main/java/com/openrosary/app/UpdateChecker.java:151-170 | no version is newer than itself |
| UpdateChecker.Asymmetric | app/src/main/java/com/openrosary/app/UpdateChecker.java:151-170 | if b is newer than a, then a is not newer than b |
| UpdateChecker.FirstDifferenceDecides | app/src/main/java/com/openrosary/app/UpdateChecker.java:153-166 | when all earlier components agree, the first differing component decides |
| UpdateChecker.UnparsableReachedIsFalse | app/src/main/java/com/openrosary/app/UpdateChecker.java:153-178 | an unparsable component reached while the earlier ones agree gives false |
| UpdateChecker.TrailingZerosIgnored | app/src/main/java/com/openrosary/app/UpdateChecker.java:154-155 | trailing ".0" components change nothing, in either order |
| UpdateChecker.ShortVersionEqualsPadded | app/src/main/java/com/openrosary/app/UpdateChecker.java:129-178 | "1.2" and "1.2.0" are not updates over each other |
| Text.LowerChar | app/src/main/java/com/openrosary/app/RosaryPrayers.java:241 | the result is never an upper-case letter; an upper-case letter becomes the lower-case letter at the same place in the alphabet; other characters are kept |
| Text.StartsWith | app/src/main/java/com/openrosary/app/UpdateChecker.java:134-135 | `startsWith` holds exactly when the string is the prefix followed by something |
| Text.ToLowerCase | app/src/main/java/com/openrosary/app/RosaryPrayers.java:241 | lower-casing keeps the length and lowers each character |
| Text.EqualsIgnoreCase | app/src/main/java/com/openrosary/app/UpdateChecker.java:140 | two strings are equal ignoring case exactly when their lower cases are equal |
| Text.ContainsMeansOccurs | app/src/main/java/com/openrosary/app/UpdateChecker.java:140 | `contains` holds exactly when the pattern occurs at some index |
| Text.SplitOnDot | app/src/main/java/com/openrosary/app/UpdateChecker.java:145-146 | a string without a dot splits into itself; otherwise no piece holds a dot and the last piece, if any, is not empty |
| Text.DropTrailingEmpty | app/src/main/java/com/openrosary/app/UpdateChecker.java:145-146 | the result is a prefix of the pieces that does not end in an empty piece, and every piece dropped is empty |
| Text.DroppedAreEmpties | app/src/main/java/com/openrosary/app/UpdateChecker.java:145-146 | putting back as many empty pieces as were dropped gives the original pieces |
| Text.JoinDotPieces | app/src/main/java/com/openrosary/app/UpdateChecker.java:145-146 | joining the pieces between the dots with dots gives back the string |
| Text.DotPiecesOfJoinDots | app/src/main/java/com/openrosary/app/UpdateChecker.java:145-146 | splitting dot-free pieces joined with dots gives back the pieces |
| Text.SplitOnDotRejoins | app/src/main/java/com/openrosary/app/UpdateChecker.java:145-146 | the split loses only the empty pieces at the end: with them put back, joining with dots gives the original string |

## Left out

- Prayer texts, titles, descriptions and labels as strings are not modelled. Android resources, locales, string formatting and `getLocalizedMysteryType` are left out too. The model names each text or label by its resource key and number.
- `getPrayerTextByTotalCount`, `getPrayerTextForState`, `getCurrentPrayerText`, `getCurrentPrayerLabel`, `getPreviousPrayerText`, `getMysteryTitleByTotalCount` and the other text builders are not part of this model. They only format what the table already decides.
- `getMysteryDescriptions` is not modelled: an announcement is assumed to have a description whenever it has a title.
- The resource fallbacks inside `RosaryPrayers` (missing context, missing resource) are not modelled. `resourcesAvailable` stands for `RosaryState`'s own context only.
- Title lookup per session: the titles are looked up once, when a session is created. The source looks them up at each announcement, with the same result.
- The unused `DECADE_PRAYERS` array is not modelled.
- Logging, views, scrolling, gestures, volume keys, vibration patterns, dialogs, the posted runnables and the update checker's network request are not modelled. The haptic choice is recorded only as the flag passed to it.
- The exception handlers around `onCreate`, `advanceRosary` and `previousRosary` are not modelled. So is the `NullPointerException` of a null mystery type: mystery types are never null in the model.
- `getSuggestedMysteryForToday` reads the calendar. In the model the day of the week and the month are parameters.
- Text.ToLowerCase: maps ASCII letters only, not all of Unicode.
- UpdateChecker.ParseInt: accepts only unsigned ASCII digit strings. `Integer.parseInt` also accepts a leading sign, accepts non-ASCII Unicode decimal digits (such as "١٢") and fails above 2^31-1; all three are left out.
- Rosary.MysteryAnnouncementCount: 32-bit overflow for huge decade numbers is not modelled.
- Navigation.MainActivity.AdvanceRosary: only the count logic of the completion check is modelled. Whether the activity is finishing or destroyed is one parameter, `isFinishing`.
