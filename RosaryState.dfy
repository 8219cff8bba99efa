/**
 * The incremental cursor over the 80 positions of the rosary.  A `RosaryState`
 * walks the stages (introduction, first prayers, five decades, conclusion) one
 * prayer at a time; `getTotalCount` maps it back to an absolute position, and
 * the contracts below tie every step to the position table of PrayerStructure.
 * Prayer texts are represented by what they show (`Shown`), labels by their
 * title resource and format argument (`Label`).
 */
module Rosary {
  import opened Optional
  import opened PrayerStructure
  import opened RosaryPrayers

  /** The stages, in the order the source compares them (`STAGE_INTRO` = 0 ... `STAGE_COMPLETE` = 4). */
  datatype Stage = Intro | FirstPrayers | Decade | Conclusion | Complete

  function Rank(s: Stage): nat
  {
    match s
    case Intro => 0
    case FirstPrayers => 1
    case Decade => 2
    case Conclusion => 3
    case Complete => 4
  }

  /** The counters of a `RosaryState`, as a value. */
  datatype Cursor = Cursor(stage: Stage, prayerCount: int, mysteryIndex: int, decadeCount: int, isComplete: bool)

  /** Mysteries in each title (and description) array. */
  const MysteriesPerSet: int := 5

  /** `getMaxCount`. */
  const MaxCount: int := 80

  /** What `advance` and `goBack` return, with resource texts named by their key. */
  datatype Shown =
    | Prayer(kind: int)                              // the text of a prayer type
    | Announcement(decade: int, mysteries: MysterySet) // announcement with the mystery's title, then its description
    | AnnouncementTitle(decade: int, mysteries: MysterySet) // announcement with the mystery's title only
    | MysteryInfoMissing                             // "Error: Mystery information not found."
    | MysteryNumber(decade: int)                     // "Mystery <decade>"
    | ResourcesMissing                               // "Error: Resources not available."
    | GodBless                                       // "God bless you."
    | CompletedMessage                               // "You have completed the ... mysteries ..."
    | CompletionTitle                                // the completion title resource
    | Blank                                          // ""

  /** A label: a title resource, possibly formatted with a number. */
  datatype Label = Plain(key: TitleKey) | Numbered(key: TitleKey, number: int)

  // ---------------------------------------------------------------------------
  // The abstraction function and the invariant

  /** `getTotalCount`: finished stages contribute their full length, the current one its counter. */
  function TotalCountOf(c: Cursor): (n: int)
    ensures WellFormed(c) ==> 0 <= n <= MaxCount
    ensures WellFormed(c) ==> (n == MaxCount <==> c.isComplete)
  {
    var intro := if c.stage == Intro then c.prayerCount else 2;
    var first := if c.stage == FirstPrayers then c.prayerCount else if Rank(c.stage) > 1 then 5 else 0;
    var decades := if c.stage == Decade then c.mysteryIndex * 14 + c.prayerCount
                   else if Rank(c.stage) > 2 then 5 * 14 else 0;
    var conclusion := if c.stage == Conclusion then c.prayerCount else if c.stage == Complete then 3 else 0;
    intro + first + decades + conclusion
  }

  /** The invariant every reachable cursor keeps. */
  predicate WellFormed(c: Cursor)
  {
    && (c.isComplete <==> c.stage == Complete)
    && c.mysteryIndex == c.decadeCount - 1
    && match c.stage
       case Intro => 0 <= c.prayerCount <= 2 && c.mysteryIndex == 0
       case FirstPrayers => 0 <= c.prayerCount <= 5 && c.mysteryIndex == 0
       case Decade => 0 <= c.prayerCount <= 14 && 0 <= c.mysteryIndex < MysteriesPerSet
       case Conclusion => 0 <= c.prayerCount <= 2 && c.mysteryIndex == MysteriesPerSet
       case Complete => c.prayerCount == 3 && c.mysteryIndex == MysteriesPerSet
  }

  /** The counter has moved past the prayer it stands for: where `advance` leaves it. */
  predicate Ahead(c: Cursor)
  {
    c.prayerCount >= 1
  }

  /** The counter stands before the last prayer of its stage: where `goBack` leaves it. */
  predicate Behind(c: Cursor)
  {
    match c.stage
    case Intro => c.prayerCount < 2
    case FirstPrayers => c.prayerCount < 5
    case Decade => c.prayerCount < 14
    case Conclusion => c.prayerCount < 2
    case Complete => false
  }

  /** The cursor `advance` leaves behind when it reaches position n (0 is the fresh state). */
  function Settled(n: int): (c: Cursor)
    requires 0 <= n <= MaxCount
    ensures WellFormed(c) && TotalCountOf(c) == n
    ensures n >= 1 ==> Ahead(c)
  {
    if n <= 2 then Cursor(Intro, n, 0, 1, false)
    else if n <= 7 then Cursor(FirstPrayers, n - 2, 0, 1, false)
    else if n <= 77 then Cursor(Decade, (n - 8) % 14 + 1, (n - 8) / 14, (n - 8) / 14 + 1, false)
    else if n <= 79 then Cursor(Conclusion, n - 77, 5, 6, false)
    else Cursor(Complete, 3, 5, 6, true)
  }

  /** The cursor `goBack` leaves behind when it reaches position n. */
  function SettledBack(n: int): (c: Cursor)
    requires 0 <= n <= 78
    ensures WellFormed(c) && Behind(c) && TotalCountOf(c) == n && !c.isComplete
  {
    if n <= 1 then Cursor(Intro, n, 0, 1, false)
    else if n <= 6 then Cursor(FirstPrayers, n - 2, 0, 1, false)
    else if n <= 76 then Cursor(Decade, (n - 7) % 14, (n - 7) / 14, (n - 7) / 14 + 1, false)
    else Cursor(Conclusion, n - 77, 5, 6, false)
  }

  /** Stages whose next step needs the resources: the decades, and the step into them. */
  predicate NeedsResources(c: Cursor)
  {
    c.stage == Decade || (c.stage == FirstPrayers && c.prayerCount >= 5)
  }

  /**
   * What the table shows at position n: the prayer of its type, or for a mystery
   * announcement the decade's announcement when the titles are available and
   * `missing` otherwise.  A `described` announcement also carries the mystery's
   * description (the forward step shows it; the backward step shows the title only).
   */
  function TextAt(n: int, titles: Option<MysterySet>, missing: Shown, described: bool): Shown
  {
    var kind := PrayerTypeForCount(n);
    if kind != PrayerMysteryAnnouncement then Prayer(kind)
    else if titles.Some? then
      if described then Announcement(DecadeForCount(n), titles.value)
      else AnnouncementTitle(DecadeForCount(n), titles.value)
    else missing
  }

  /**
   * One `advance`: nothing moves once complete; a step that needs missing resources
   * keeps the position; any other step moves to the next position, shows what the
   * table puts there and leaves the counter past that prayer.
   */
  predicate Stepped(before: Cursor, after: Cursor, shown: Shown, resourcesAvailable: bool, titles: Option<MysterySet>)
  {
    if before.isComplete then
      shown == GodBless && after == before
    else if !resourcesAvailable && NeedsResources(before) then
      shown == ResourcesMissing && WellFormed(after) && TotalCountOf(after) == TotalCountOf(before)
    else
      var n := TotalCountOf(before) + 1;
      && WellFormed(after) && Ahead(after) && TotalCountOf(after) == n
      && shown == TextAt(n, titles, MysteryInfoMissing, true)
  }

  /** The position `goBack` moves to: one back, none at 0, and 78 from the completed state. */
  function BackTarget(before: Cursor): int
  {
    if before.stage == Complete then 78
    else if TotalCountOf(before) == 0 then 0
    else TotalCountOf(before) - 1
  }

  /**
   * One `goBack`: the cursor moves to `BackTarget`, before the prayer there, and the
   * text shown is the one the table puts at the position after it, that is, the
   * prayer about to be said.
   */
  predicate SteppedBack(before: Cursor, after: Cursor, shown: Shown, resourcesAvailable: bool, titles: Option<MysterySet>)
  {
    var n := BackTarget(before);
    && WellFormed(after) && Behind(after) && TotalCountOf(after) == n
    && shown == TextAt(n + 1, if resourcesAvailable then titles else None, MysteryNumber(DecadeForCount(n + 1)), false)
  }

  /** Inside the decades, the position after counter p of mystery mi holds the prayer of offset p of decade mi + 1. */
  lemma DecadePosition(mysteryIndex: int, offset: int)
    requires 0 <= mysteryIndex < MysteriesPerSet && 0 <= offset < 14
    ensures var n := 8 + 14 * mysteryIndex + offset;
      && DecadeForCount(n) == mysteryIndex + 1
      && (offset == 0 ==> PrayerTypeForCount(n) == PrayerMysteryAnnouncement)
      && (offset == 1 ==> PrayerTypeForCount(n) == PrayerOurFather)
      && (2 <= offset <= 11 ==> PrayerTypeForCount(n) == PrayerHailMary)
      && (offset == 12 ==> PrayerTypeForCount(n) == PrayerGloryBe)
      && (offset == 13 ==> PrayerTypeForCount(n) == PrayerFatima)
  {
    var n := 8 + 14 * mysteryIndex + offset;
    assert (n - 8) / 14 == mysteryIndex && (n - 8) % 14 == offset;
  }

  /** One prayer inside a decade is one step of `advance`. */
  lemma DecadeStepped(before: Cursor, after: Cursor, shown: Shown, resourcesAvailable: bool, titles: Option<MysterySet>)
    requires WellFormed(before) && before.stage == Decade && 0 <= before.prayerCount < 14 && resourcesAvailable
    requires after == before.(prayerCount := before.prayerCount + 1)
    requires before.prayerCount == 0 ==>
      shown == if titles.Some? then Announcement(before.decadeCount, titles.value) else MysteryInfoMissing
    requires before.prayerCount == 1 ==> shown == Prayer(PrayerOurFather)
    requires 2 <= before.prayerCount <= 11 ==> shown == Prayer(PrayerHailMary)
    requires before.prayerCount == 12 ==> shown == Prayer(PrayerGloryBe)
    requires before.prayerCount == 13 ==> shown == Prayer(PrayerFatima)
    ensures Stepped(before, after, shown, resourcesAvailable, titles)
  {
    DecadePosition(before.mysteryIndex, before.prayerCount);
  }

  /** After a step forward the count alone determines the whole cursor. */
  lemma AheadIsSettled(c: Cursor)
    requires WellFormed(c) && Ahead(c)
    ensures 1 <= TotalCountOf(c) && c == Settled(TotalCountOf(c))
  {
    if c.stage == Decade {
      var n := TotalCountOf(c);
      assert n - 8 == 14 * c.mysteryIndex + (c.prayerCount - 1);
      assert (n - 8) / 14 == c.mysteryIndex && (n - 8) % 14 == c.prayerCount - 1;
    }
  }

  /** After a step backward the count alone determines the whole cursor. */
  lemma BehindIsSettledBack(c: Cursor)
    requires WellFormed(c) && Behind(c)
    ensures TotalCountOf(c) <= 78 && c == SettledBack(TotalCountOf(c))
  {
    if c.stage == Decade {
      var n := TotalCountOf(c);
      assert n - 7 == 14 * c.mysteryIndex + c.prayerCount;
      assert (n - 7) / 14 == c.mysteryIndex && (n - 7) % 14 == c.prayerCount;
    }
  }

  /**
   * The text `goBack` shows for the state it has moved to: the prayer the counter
   * stands before, read from the stage and the counter.  It never reports an error
   * and never shows a mystery's description; the completion title belongs to the
   * completed state alone, and a cursor standing before a prayer always has a text.
   */
  function StateText(c: Cursor, resourcesAvailable: bool, titles: Option<MysterySet>): (r: Shown)
    ensures !r.Announcement? && r != MysteryInfoMissing && r != ResourcesMissing
    ensures r == CompletionTitle <==> c.stage == Complete
    ensures r.AnnouncementTitle? ==> resourcesAvailable && titles == Some(r.mysteries) && r.decade == c.decadeCount
    ensures WellFormed(c) && Behind(c) ==> r != Blank
  {
    match c.stage
    case Intro =>
      if c.prayerCount == 0 then Prayer(PrayerSignOfCross)
      else if c.prayerCount == 1 then Prayer(PrayerApostlesCreed)
      else Blank
    case FirstPrayers =>
      if c.prayerCount == 0 then Prayer(PrayerOurFather)
      else if 1 <= c.prayerCount <= 3 then Prayer(HailMaryForIntro(c.prayerCount))
      else if c.prayerCount == 4 then Prayer(PrayerGloryBe)
      else Blank
    case Decade =>
      if c.prayerCount == 0 then
        if resourcesAvailable && titles.Some? && c.mysteryIndex < MysteriesPerSet then AnnouncementTitle(c.decadeCount, titles.value)
        else MysteryNumber(c.decadeCount)
      else if c.prayerCount == 1 then Prayer(PrayerOurFather)
      else if 2 <= c.prayerCount <= 11 then Prayer(PrayerHailMary)
      else if c.prayerCount == 12 then Prayer(PrayerGloryBe)
      else if c.prayerCount == 13 then Prayer(PrayerFatima)
      else Blank
    case Conclusion =>
      if c.prayerCount == 0 then Prayer(PrayerHailHolyQueen)
      else if c.prayerCount == 1 then Prayer(PrayerRosaryPrayer)
      else if c.prayerCount == 2 then Prayer(PrayerSignOfCross)
      else Blank
    case Complete => CompletionTitle
  }

  /**
   * The stage-and-counter switch of `goBack` agrees with the position table: a cursor
   * standing before a prayer shows what the table puts at the next position.
   */
  lemma StateTextMatchesTable(c: Cursor, resourcesAvailable: bool, titles: Option<MysterySet>)
    requires WellFormed(c) && Behind(c)
    ensures var n := TotalCountOf(c) + 1;
      StateText(c, resourcesAvailable, titles)
      == TextAt(n, if resourcesAvailable then titles else None, MysteryNumber(DecadeForCount(n)), false)
  {
    if c.stage == Decade {
      DecadePosition(c.mysteryIndex, c.prayerCount);
    }
  }

  /** A backward move onto a cursor before its prayer, showing that cursor's text, is one step of `goBack`. */
  lemma BackStepped(before: Cursor, after: Cursor, shown: Shown, resourcesAvailable: bool, titles: Option<MysterySet>)
    requires WellFormed(after) && Behind(after) && TotalCountOf(after) == BackTarget(before)
    requires shown == StateText(after, resourcesAvailable, titles)
    ensures SteppedBack(before, after, shown, resourcesAvailable, titles)
  {
    StateTextMatchesTable(after, resourcesAvailable, titles);
  }

  /**
   * A cursor settled on a decade position carries that position's decade and mystery,
   * and its counter tracks the Hail Mary number the table gives the position.
   */
  lemma SettledMatchesTable(n: int)
    requires 8 <= n <= 77
    ensures Settled(n).decadeCount == DecadeForCount(n)
    ensures Settled(n).mysteryIndex == MysteryIndex(n)
    ensures PrayerTypeForCount(n) == PrayerHailMary <==> 3 <= Settled(n).prayerCount <= 12
    ensures HailMaryNumber(n) == if 3 <= Settled(n).prayerCount <= 12 then Settled(n).prayerCount - 2 else 0
  {
  }

  /**
   * `isBeadTypeTransition`: whether the next step crosses between a small and a large
   * bead.  Only counters 0, 2, 5 and 12 can be such a crossing, and never in the
   * completed state.
   */
  function IsBeadTypeTransition(c: Cursor, isAdvancing: bool): (r: bool)
    ensures c.stage == Complete ==> !r
    ensures r ==> c.prayerCount in {0, 2, 5, 12}
  {
    if c.stage == Decade && (c.prayerCount == 0 || c.prayerCount == 1) then false
    else if isAdvancing then
      if c.stage == Decade then
        c.prayerCount == 12 || c.prayerCount == 2
      else if c.stage == FirstPrayers && c.prayerCount == 5 then true
      else if c.stage == Intro && c.prayerCount == 2 then true
      else if c.stage == Decade && c.mysteryIndex == 5 then true  // shadowed by the first Decade test
      else false
    else
      if c.stage == Decade then
        c.prayerCount == 2 || c.prayerCount == 12
      else if c.stage == Decade && c.prayerCount == 0 && c.mysteryIndex == 0 then true  // shadowed likewise
      else if c.stage == FirstPrayers && c.prayerCount == 0 then true
      else if c.stage == Conclusion && c.prayerCount == 0 then true
      else false
  }

  /**
   * What `isBeadTypeTransition` decides once its shadowed branches are removed: in a
   * decade, counters 2 and 12 in either direction; otherwise, forward out of the
   * introduction and the first prayers, backward into them from the first prayers and
   * the conclusion.
   */
  lemma BeadTransitionCases(c: Cursor, isAdvancing: bool)
    ensures c.stage == Decade ==> (IsBeadTypeTransition(c, isAdvancing) <==> c.prayerCount == 2 || c.prayerCount == 12)
    ensures c.stage != Decade && isAdvancing ==>
      (IsBeadTypeTransition(c, isAdvancing) <==>
        (c.stage == Intro && c.prayerCount == 2) || (c.stage == FirstPrayers && c.prayerCount == 5))
    ensures c.stage != Decade && !isAdvancing ==>
      (IsBeadTypeTransition(c, isAdvancing) <==>
        (c.stage == FirstPrayers && c.prayerCount == 0) || (c.stage == Conclusion && c.prayerCount == 0))
  {
  }

  /**
   * `getPrayerLabelByTotalCount`: the position clamped to 1..80, then one label per
   * position.  The generic label appears exactly when the resources are missing, a
   * Hail Mary is numbered 1..10 and a mystery 1..5, and nothing else is numbered.
   */
  function PrayerLabelByTotalCount(totalCount: int, resourcesAvailable: bool): (r: Label)
    ensures r == Plain(GenericPrayer) <==> !resourcesAvailable
    ensures r.Numbered? && r.key == TitleHailMaryDecade ==> 1 <= r.number <= 10
    ensures r.Numbered? && r.key != TitleHailMaryDecade ==> r.key == MysteryLabel && 1 <= r.number <= 5
  {
    if !resourcesAvailable then Plain(GenericPrayer)
    else
      var n := if totalCount < 1 then 1 else if totalCount > 80 then 80 else totalCount;
      match n
      case 1 => Plain(TitleSignOfCross)
      case 2 => Plain(TitleApostlesCreed)
      case 3 => Plain(TitleOurFather)
      case 4 => Plain(TitleHailMaryFaith)
      case 5 => Plain(TitleHailMaryHope)
      case 6 => Plain(TitleHailMaryCharity)
      case 7 => Plain(TitleGloryBe)
      case 8 => Numbered(MysteryLabel, 1)
      case 9 => Plain(TitleOurFather)
      case 10 => Numbered(TitleHailMaryDecade, 1)
      case 11 => Numbered(TitleHailMaryDecade, 2)
      case 12 => Numbered(TitleHailMaryDecade, 3)
      case 13 => Numbered(TitleHailMaryDecade, 4)
      case 14 => Numbered(TitleHailMaryDecade, 5)
      case 15 => Numbered(TitleHailMaryDecade, 6)
      case 16 => Numbered(TitleHailMaryDecade, 7)
      case 17 => Numbered(TitleHailMaryDecade, 8)
      case 18 => Numbered(TitleHailMaryDecade, 9)
      case 19 => Numbered(TitleHailMaryDecade, 10)
      case 20 => Plain(TitleGloryBe)
      case 21 => Plain(TitleFatimaPrayer)
      case 22 => Numbered(MysteryLabel, 2)
      case 23 => Plain(TitleOurFather)
      case 24 => Numbered(TitleHailMaryDecade, 1)
      case 25 => Numbered(TitleHailMaryDecade, 2)
      case 26 => Numbered(TitleHailMaryDecade, 3)
      case 27 => Numbered(TitleHailMaryDecade, 4)
      case 28 => Numbered(TitleHailMaryDecade, 5)
      case 29 => Numbered(TitleHailMaryDecade, 6)
      case 30 => Numbered(TitleHailMaryDecade, 7)
      case 31 => Numbered(TitleHailMaryDecade, 8)
      case 32 => Numbered(TitleHailMaryDecade, 9)
      case 33 => Numbered(TitleHailMaryDecade, 10)
      case 34 => Plain(TitleGloryBe)
      case 35 => Plain(TitleFatimaPrayer)
      case 36 => Numbered(MysteryLabel, 3)
      case 37 => Plain(TitleOurFather)
      case 38 => Numbered(TitleHailMaryDecade, 1)
      case 39 => Numbered(TitleHailMaryDecade, 2)
      case 40 => Numbered(TitleHailMaryDecade, 3)
      case 41 => Numbered(TitleHailMaryDecade, 4)
      case 42 => Numbered(TitleHailMaryDecade, 5)
      case 43 => Numbered(TitleHailMaryDecade, 6)
      case 44 => Numbered(TitleHailMaryDecade, 7)
      case 45 => Numbered(TitleHailMaryDecade, 8)
      case 46 => Numbered(TitleHailMaryDecade, 9)
      case 47 => Numbered(TitleHailMaryDecade, 10)
      case 48 => Plain(TitleGloryBe)
      case 49 => Plain(TitleFatimaPrayer)
      case 50 => Numbered(MysteryLabel, 4)
      case 51 => Plain(TitleOurFather)
      case 52 => Numbered(TitleHailMaryDecade, 1)
      case 53 => Numbered(TitleHailMaryDecade, 2)
      case 54 => Numbered(TitleHailMaryDecade, 3)
      case 55 => Numbered(TitleHailMaryDecade, 4)
      case 56 => Numbered(TitleHailMaryDecade, 5)
      case 57 => Numbered(TitleHailMaryDecade, 6)
      case 58 => Numbered(TitleHailMaryDecade, 7)
      case 59 => Numbered(TitleHailMaryDecade, 8)
      case 60 => Numbered(TitleHailMaryDecade, 9)
      case 61 => Numbered(TitleHailMaryDecade, 10)
      case 62 => Plain(TitleGloryBe)
      case 63 => Plain(TitleFatimaPrayer)
      case 64 => Numbered(MysteryLabel, 5)
      case 65 => Plain(TitleOurFather)
      case 66 => Numbered(TitleHailMaryDecade, 1)
      case 67 => Numbered(TitleHailMaryDecade, 2)
      case 68 => Numbered(TitleHailMaryDecade, 3)
      case 69 => Numbered(TitleHailMaryDecade, 4)
      case 70 => Numbered(TitleHailMaryDecade, 5)
      case 71 => Numbered(TitleHailMaryDecade, 6)
      case 72 => Numbered(TitleHailMaryDecade, 7)
      case 73 => Numbered(TitleHailMaryDecade, 8)
      case 74 => Numbered(TitleHailMaryDecade, 9)
      case 75 => Numbered(TitleHailMaryDecade, 10)
      case 76 => Plain(TitleGloryBe)
      case 77 => Plain(TitleFatimaPrayer)
      case 78 => Plain(TitleHailHolyQueen)
      case 79 => Plain(TitleRosaryPrayer)
      case 80 => Plain(TitleSignOfCross)
      case _ => Plain(GenericPrayer)
  }

  /** The label the table implies: the title of the position's type, numbered for Hail Marys and mysteries. */
  function LabelFromTable(n: int): Label
  {
    var key := TitleResourceId(PrayerTypeForCount(n));
    if key == TitleHailMaryDecade then Numbered(key, HailMaryNumber(n))
    else if key == MysteryLabel then Numbered(key, DecadeForCount(n))
    else Plain(key)
  }

  /** The label switch agrees with the table on the opening and closing prayers. */
  lemma LabelsMatchTableOutsideDecades(n: int)
    requires 1 <= n <= 7 || 78 <= n <= 80
    ensures PrayerLabelByTotalCount(n, true) == LabelFromTable(n)
  {
  }

  /** The label switch agrees with the table on the first two decades. */
  lemma LabelsMatchTableEarlyDecades(n: int)
    requires 8 <= n <= 35
    ensures PrayerLabelByTotalCount(n, true) == LabelFromTable(n)
  {
  }

  /** The label switch agrees with the table on the third decade. */
  lemma LabelsMatchTableThirdDecade(n: int)
    requires 36 <= n <= 49
    ensures PrayerLabelByTotalCount(n, true) == LabelFromTable(n)
  {
  }

  /** The label switch agrees with the table on the fourth decade. */
  lemma LabelsMatchTableFourthDecade(n: int)
    requires 50 <= n <= 63
    ensures PrayerLabelByTotalCount(n, true) == LabelFromTable(n)
  {
  }

  /** The label switch agrees with the table on the fifth decade. */
  lemma LabelsMatchTableLastDecade(n: int)
    requires 64 <= n <= 77
    ensures PrayerLabelByTotalCount(n, true) == LabelFromTable(n)
  {
  }

  /** The explicit label switch agrees with the position table at every position, after clamping. */
  lemma LabelsMatchTable(totalCount: int)
    ensures PrayerLabelByTotalCount(totalCount, true)
      == LabelFromTable(if totalCount < 1 then 1 else if totalCount > 80 then 80 else totalCount)
    ensures PrayerLabelByTotalCount(totalCount, false) == Plain(GenericPrayer)
  {
    var n := if totalCount < 1 then 1 else if totalCount > 80 then 80 else totalCount;
    assert PrayerLabelByTotalCount(totalCount, true) == PrayerLabelByTotalCount(n, true);
    if n <= 7 || 78 <= n {
      LabelsMatchTableOutsideDecades(n);
    } else if n <= 35 {
      LabelsMatchTableEarlyDecades(n);
    } else if n <= 49 {
      LabelsMatchTableThirdDecade(n);
    } else if n <= 63 {
      LabelsMatchTableFourthDecade(n);
    } else {
      LabelsMatchTableLastDecade(n);
    }
  }

  /** `calculateMysteryDecade`: half-open ranges of 14 positions; 0 outside positions 8..77. */
  function CalculateMysteryDecade(totalCount: int): (r: int)
    ensures 0 <= r <= MysteriesPerSet
    ensures r == 0 <==> !(8 <= totalCount <= 77)
  {
    if 8 <= totalCount < 22 then 1
    else if 22 <= totalCount < 36 then 2
    else if 36 <= totalCount < 50 then 3
    else if 50 <= totalCount < 64 then 4
    else if 64 <= totalCount < 78 then 5
    else 0
  }

  /** The two decade computations are the same function. */
  lemma MysteryDecadeMatchesTable(totalCount: int)
    ensures CalculateMysteryDecade(totalCount) == DecadeForCount(totalCount)
  {
  }

  /**
   * `getMysteryAnnouncementCount`: the position of decade d's announcement.  The
   * positions are 14 apart from 8 on, and they lie in 8..64 exactly for decades 1..5.
   */
  function MysteryAnnouncementCount(decadeNum: int): (r: int)
    ensures (r - 8) % 14 == 0
    ensures 8 <= r <= 64 <==> 1 <= decadeNum <= MysteriesPerSet
  {
    8 + (decadeNum - 1) * 14
  }

  /** For decades 1..5 that position is an announcement, and it lies in decade d. */
  lemma AnnouncementCountIsAnnouncement(decadeNum: int)
    requires 1 <= decadeNum <= 5
    ensures PrayerTypeForCount(MysteryAnnouncementCount(decadeNum)) == PrayerMysteryAnnouncement
    ensures DecadeForCount(MysteryAnnouncementCount(decadeNum)) == decadeNum
  {
    var n := MysteryAnnouncementCount(decadeNum);
    assert (n - 8) % 14 == 0 && (n - 8) / 14 == decadeNum - 1;
  }

  /** Conversely every announcement sits at the position computed from its decade. */
  lemma AnnouncementAtItsCount(n: int)
    requires PrayerTypeForCount(n) == PrayerMysteryAnnouncement
    ensures MysteryAnnouncementCount(DecadeForCount(n)) == n
  {
    AnnouncementHasDecade(n);
  }

  // ---------------------------------------------------------------------------
  // The cursor

  class RosaryState {
    var stage: Stage
    var mysteryIndex: int
    var prayerCount: int
    const mysteryType: string
    /** The title array `getMysteryTitles` gives for `mysteryType`; it is the same on every call. */
    const titles: Option<MysterySet>
    var decadeCount: int
    var isComplete: bool
    var isGoingBack: bool

    function Snapshot(): Cursor
      reads this
    {
      Cursor(stage, prayerCount, mysteryIndex, decadeCount, isComplete)
    }

    predicate Valid()
      reads this
    {
      WellFormed(Snapshot())
    }

    /** `getTotalCount`. */
    function TotalCount(): (n: int)
      reads this
      ensures Valid() ==> 0 <= n <= MaxCount
    {
      TotalCountOf(Snapshot())
    }

    /** 1 while a stage or decade is used up, so that `advance` re-enters itself exactly once. */
    function Rollover(): nat
      reads this
    {
      if (stage == Intro && prayerCount >= 2) || (stage == FirstPrayers && prayerCount >= 5)
         || (stage == Decade && prayerCount >= 14)
      then 1 else 0
    }

    /** A fresh session sits before the first prayer, at position 0. */
    constructor(mysteryType: string)
      ensures Snapshot() == Settled(0) && !isGoingBack && this.mysteryType == mysteryType
      ensures titles == MysteryTitles(Some(mysteryType))
      ensures stage == Intro && prayerCount == 0 && mysteryIndex == 0 && decadeCount == 1 && !isComplete
      ensures TotalCount() == 0
    {
      this.mysteryType := mysteryType;
      titles := MysteryTitles(Some(mysteryType));
      stage := Intro;
      mysteryIndex := 0;
      prayerCount := 0;
      decadeCount := 1;
      isComplete := false;
      isGoingBack := false;
    }

    /** `advance`: one step forward (`resourcesAvailable` is whether the resource context is set). */
    method Advance(resourcesAvailable: bool) returns (shown: Shown)
      requires Valid()
      modifies this
      decreases Rollover(), 1
      ensures Valid() && !isGoingBack
      ensures Stepped(old(Snapshot()), Snapshot(), shown, resourcesAvailable, titles)
    {
      isGoingBack := false;
      if isComplete {
        return GodBless;
      }
      match stage
      case Intro => shown := HandleIntroStage(resourcesAvailable);
      case FirstPrayers => shown := HandleFirstPrayersStage(resourcesAvailable);
      case Decade => shown := HandleDecadeStage(resourcesAvailable);
      case Conclusion => shown := HandleConclusionStage();
      case Complete => shown := CompletedMessage;
    }

    method HandleIntroStage(resourcesAvailable: bool) returns (shown: Shown)
      requires Valid() && stage == Intro && !isGoingBack
      modifies this
      decreases Rollover(), 0
      ensures Valid() && !isGoingBack
      ensures Stepped(old(Snapshot()), Snapshot(), shown, resourcesAvailable, titles)
    {
      if prayerCount == 0 {
        shown := Prayer(PrayerSignOfCross);
        prayerCount := prayerCount + 1;
      } else if prayerCount == 1 {
        shown := Prayer(PrayerApostlesCreed);
        prayerCount := prayerCount + 1;
      } else {
        stage := FirstPrayers;
        prayerCount := 0;
        shown := Advance(resourcesAvailable);
      }
    }

    method HandleFirstPrayersStage(resourcesAvailable: bool) returns (shown: Shown)
      requires Valid() && stage == FirstPrayers && !isGoingBack
      modifies this
      decreases Rollover(), 0
      ensures Valid() && !isGoingBack
      ensures Stepped(old(Snapshot()), Snapshot(), shown, resourcesAvailable, titles)
    {
      if prayerCount == 0 {
        shown := Prayer(PrayerOurFather);
        prayerCount := prayerCount + 1;
      } else if 1 <= prayerCount <= 3 {
        shown := Prayer(HailMaryForIntro(prayerCount));
        prayerCount := prayerCount + 1;
      } else if prayerCount == 4 {
        shown := Prayer(PrayerGloryBe);
        prayerCount := prayerCount + 1;
      } else {
        stage := Decade;
        prayerCount := 0;
        mysteryIndex := 0;
        decadeCount := 1;
        shown := Advance(resourcesAvailable);
      }
    }

    method HandleDecadeStage(resourcesAvailable: bool) returns (shown: Shown)
      requires Valid() && stage == Decade && !isGoingBack
      modifies this
      decreases Rollover(), 0
      ensures Valid() && !isGoingBack
      ensures Stepped(old(Snapshot()), Snapshot(), shown, resourcesAvailable, titles)
    {
      if !resourcesAvailable {
        return ResourcesMissing;
      }
      ghost var before := Snapshot();
      if prayerCount == 0 {
        if titles.Some? && mysteryIndex < MysteriesPerSet {
          shown := Announcement(decadeCount, titles.value);
        } else {
          shown := MysteryInfoMissing;
        }
        prayerCount := prayerCount + 1;
      } else if prayerCount == 1 {
        shown := Prayer(PrayerOurFather);
        prayerCount := prayerCount + 1;
      } else if 2 <= prayerCount <= 11 {
        shown := Prayer(PrayerHailMary);
        prayerCount := prayerCount + 1;
      } else if prayerCount == 12 {
        shown := Prayer(PrayerGloryBe);
        prayerCount := prayerCount + 1;
      } else if prayerCount == 13 {
        shown := Prayer(PrayerFatima);
        prayerCount := prayerCount + 1;
      } else {
        mysteryIndex := mysteryIndex + 1;
        decadeCount := decadeCount + 1;
        if mysteryIndex < MysteriesPerSet {
          prayerCount := 0;
          shown := Advance(resourcesAvailable);
          return;
        } else {
          stage := Conclusion;
          prayerCount := 0;
          mysteryIndex := MysteriesPerSet;
          shown := Advance(resourcesAvailable);
          return;
        }
      }
      DecadeStepped(before, Snapshot(), shown, resourcesAvailable, titles);
    }

    method HandleConclusionStage() returns (shown: Shown)
      requires Valid() && stage == Conclusion && !isGoingBack
      modifies this
      ensures Valid() && !isGoingBack
      ensures Stepped(old(Snapshot()), Snapshot(), shown, true, titles)
      ensures Stepped(old(Snapshot()), Snapshot(), shown, false, titles)
    {
      if prayerCount == 0 {
        shown := Prayer(PrayerHailHolyQueen);
        prayerCount := prayerCount + 1;
      } else if prayerCount == 1 {
        shown := Prayer(PrayerRosaryPrayer);
        prayerCount := prayerCount + 1;
      } else {
        // prayerCount is 2 here: the invariant leaves no room for the source's default branch
        shown := Prayer(PrayerSignOfCross);
        prayerCount := prayerCount + 1;
        isComplete := true;
        stage := Complete;
      }
    }

    /** `goBack`: one step backward, then the text of the prayer now ahead. */
    method GoBack(resourcesAvailable: bool) returns (shown: Shown)
      requires Valid()
      modifies this
      ensures Valid() && !isGoingBack
      ensures SteppedBack(old(Snapshot()), Snapshot(), shown, resourcesAvailable, titles)
    {
      ghost var before := Snapshot();
      isGoingBack := true;
      match stage {
      case Intro =>
        if prayerCount > 0 {
          prayerCount := prayerCount - 1;
        }
      case FirstPrayers =>
        if prayerCount > 0 {
          prayerCount := prayerCount - 1;
        } else {
          stage := Intro;
          prayerCount := 1;
        }
      case Decade =>
        if prayerCount > 0 {
          if prayerCount == 12 {
            prayerCount := 11;  // back from the Glory Be to the tenth Hail Mary
          } else {
            prayerCount := prayerCount - 1;
          }
        } else if decadeCount > 1 {
          decadeCount := decadeCount - 1;
          mysteryIndex := mysteryIndex - 1;
          prayerCount := 13;
        } else {
          stage := FirstPrayers;
          prayerCount := 4;
        }
      case Conclusion =>
        if prayerCount > 0 {
          prayerCount := prayerCount - 1;
        } else {
          stage := Decade;
          decadeCount := 5;
          mysteryIndex := 4;
          prayerCount := 13;
        }
      case Complete =>
        stage := Conclusion;
        prayerCount := 1;
        isComplete := false;
      }
      shown := StateText(Snapshot(), resourcesAvailable, titles);
      BackStepped(before, Snapshot(), shown, resourcesAvailable, titles);
      isGoingBack := false;
    }
  }

  // ---------------------------------------------------------------------------
  // Round trips of the two directions

  /** A step forward and a step back return to the same position, except at the end: 79 and 80 both come back to 78. */
  method AdvanceThenGoBack(state: RosaryState)
    requires state.Valid()
    modifies state
    ensures state.Valid()
    ensures old(state.TotalCount()) <= 78 ==> state.TotalCount() == old(state.TotalCount())
    ensures old(state.TotalCount()) >= 79 ==> state.TotalCount() == 78
  {
    var _ := state.Advance(true);
    var _ := state.GoBack(true);
  }

  /** A step back and a step forward return to the same position, except at the two ends: 0 goes on to 1, and 80 to 79. */
  method GoBackThenAdvance(state: RosaryState)
    requires state.Valid()
    modifies state
    ensures state.Valid()
    ensures 1 <= old(state.TotalCount()) <= 79 ==> state.TotalCount() == old(state.TotalCount())
    ensures old(state.TotalCount()) == 0 ==> state.TotalCount() == 1
    ensures old(state.TotalCount()) == 80 ==> state.TotalCount() == 79
  {
    var _ := state.GoBack(true);
    var _ := state.Advance(true);
  }

  /**
   * The round trips restore the position but not always the counters: where a stage
   * or a decade begins, `advance` leaves the cursor at the end of the finished stage
   * while `goBack` leaves it at the start of the next one.  Everywhere else on
   * 0..78 the two cursors are the same.
   */
  lemma SettledDiffersAtStageStarts(n: int)
    requires 0 <= n <= 78
    ensures Settled(n) != SettledBack(n) <==> n in {2, 7, 21, 35, 49, 63, 77}
  {
    if 8 <= n <= 76 {
      assert (n - 7) / 14 == (n - 8) / 14 + (if (n - 8) % 14 == 13 then 1 else 0);
    }
  }
}
