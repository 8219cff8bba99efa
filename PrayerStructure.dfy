/**
 * The fixed shape of one recitation of the rosary: 80 positions made of
 * 2 introductory prayers, 5 first prayers, 5 decades of 14 prayers each and
 * 3 concluding prayers.  Every function here is a pure lookup on an absolute
 * position; positions outside 1..80 are clamped or answered with "none" (0/-1),
 * exactly as the table in the application does.
 */
module PrayerStructure {

  // Prayer types: the application's integer constants.
  const PrayerSignOfCross: int := 0
  const PrayerApostlesCreed: int := 1
  const PrayerOurFather: int := 2
  const PrayerHailMary: int := 3
  const PrayerHailMaryFaith: int := 4
  const PrayerHailMaryHope: int := 5
  const PrayerHailMaryCharity: int := 6
  const PrayerGloryBe: int := 7
  const PrayerFatima: int := 8
  const PrayerMysteryAnnouncement: int := 9
  const PrayerHailHolyQueen: int := 10
  const PrayerRosaryPrayer: int := 11

  // The prayer types of the three fixed stages, in order.
  const IntroPrayers: seq<int> := [PrayerSignOfCross, PrayerApostlesCreed]
  const FirstPrayers: seq<int> :=
    [PrayerOurFather, PrayerHailMaryFaith, PrayerHailMaryHope, PrayerHailMaryCharity, PrayerGloryBe]
  const ConclusionPrayers: seq<int> := [PrayerHailHolyQueen, PrayerRosaryPrayer, PrayerSignOfCross]

  /** The string resources a prayer title is read from (texts themselves are not modelled). */
  datatype TitleKey =
    | TitleSignOfCross
    | TitleApostlesCreed
    | TitleOurFather
    | TitleHailMaryDecade    // formatted with the Hail Mary number
    | TitleHailMaryFaith
    | TitleHailMaryHope
    | TitleHailMaryCharity
    | TitleGloryBe
    | TitleFatimaPrayer
    | MysteryLabel           // formatted with the decade number
    | TitleHailHolyQueen
    | TitleRosaryPrayer
    | GenericPrayer          // the generic "Prayer" fallback

  /** Title resource of each prayer type, indexed by the type constant. */
  const PrayerTitleResourceIds: seq<TitleKey> := [
    TitleSignOfCross, TitleApostlesCreed, TitleOurFather, TitleHailMaryDecade,
    TitleHailMaryFaith, TitleHailMaryHope, TitleHailMaryCharity, TitleGloryBe,
    TitleFatimaPrayer, MysteryLabel, TitleHailHolyQueen, TitleRosaryPrayer
  ]

  /** The prayer type at a position; positions below 1 read as 1 and above 80 as 80. */
  function PrayerTypeForCount(totalCount: int): (r: int)
    ensures 0 <= r < |PrayerTitleResourceIds|
  {
    var n := if totalCount < 1 then 1 else if totalCount > 80 then 80 else totalCount;
    if n <= 2 then IntroPrayers[n - 1]
    else if n <= 7 then FirstPrayers[n - 3]
    else if n >= 78 then ConclusionPrayers[n - 78]
    else
      var positionInDecade := (n - 8) % 14;
      if positionInDecade == 0 then PrayerMysteryAnnouncement
      else if positionInDecade == 1 then PrayerOurFather
      else if 2 <= positionInDecade <= 11 then PrayerHailMary
      else if positionInDecade == 12 then PrayerGloryBe
      else PrayerFatima
  }

  /** The title resource of a prayer type; only an out-of-range type gets the generic fallback. */
  function TitleResourceId(prayerType: int): (r: TitleKey)
    ensures r == GenericPrayer <==> !(0 <= prayerType < |PrayerTitleResourceIds|)
    ensures 0 <= prayerType < |PrayerTitleResourceIds| ==> r == PrayerTitleResourceIds[prayerType]
  {
    if 0 <= prayerType < |PrayerTitleResourceIds| then PrayerTitleResourceIds[prayerType]
    else GenericPrayer
  }

  /** The decade (1..5) a position lies in, or 0 outside the decades. */
  function DecadeForCount(totalCount: int): (r: int)
    ensures 0 <= r <= 5
    ensures 8 <= totalCount <= 77 ==> r == (totalCount - 8) / 14 + 1
    ensures !(8 <= totalCount <= 77) ==> r == 0
  {
    if 8 <= totalCount <= 21 then 1
    else if 22 <= totalCount <= 35 then 2
    else if 36 <= totalCount <= 49 then 3
    else if 50 <= totalCount <= 63 then 4
    else if 64 <= totalCount <= 77 then 5
    else 0
  }

  /** The ordinal (1..10) of a Hail Mary within its decade, or 0 if the position is not one. */
  function HailMaryNumber(totalCount: int): (r: int)
    ensures 0 <= r <= 10
  {
    if totalCount < 8 then 0
    else if totalCount > 77 then 0
    else
      var relativePosition := (totalCount - 8) % 14;
      if 2 <= relativePosition <= 11 then relativePosition - 1 else 0
  }

  /** The mystery (0..4) a position belongs to, or -1 outside the decades. */
  function MysteryIndex(totalCount: int): (r: int)
    ensures r == DecadeForCount(totalCount) - 1
    ensures -1 <= r <= 4
  {
    if totalCount < 8 || totalCount > 77 then -1 else (totalCount - 8) / 14
  }

  // ---------------------------------------------------------------------------
  // Properties of the table

  /** Out-of-range positions are answered as the nearest end of the sequence. */
  lemma PrayerTypeClamps(n: int)
    ensures n < 1 ==> PrayerTypeForCount(n) == PrayerTypeForCount(1)
    ensures n > 80 ==> PrayerTypeForCount(n) == PrayerTypeForCount(80)
  {
  }

  /** The introductory, first and concluding prayers sit at fixed positions. */
  lemma FixedSegments()
    ensures PrayerTypeForCount(1) == PrayerSignOfCross
    ensures PrayerTypeForCount(2) == PrayerApostlesCreed
    ensures PrayerTypeForCount(3) == PrayerOurFather
    ensures PrayerTypeForCount(4) == PrayerHailMaryFaith
    ensures PrayerTypeForCount(5) == PrayerHailMaryHope
    ensures PrayerTypeForCount(6) == PrayerHailMaryCharity
    ensures PrayerTypeForCount(7) == PrayerGloryBe
    ensures PrayerTypeForCount(78) == PrayerHailHolyQueen
    ensures PrayerTypeForCount(79) == PrayerRosaryPrayer
    ensures PrayerTypeForCount(80) == PrayerSignOfCross
  {
  }

  /** Inside the decades the type depends only on the offset within the 14-prayer block. */
  lemma DecadeLayout(n: int)
    requires 8 <= n <= 77
    ensures var offset := (n - 8) % 14;
      && (offset == 0 <==> PrayerTypeForCount(n) == PrayerMysteryAnnouncement)
      && (offset == 1 <==> PrayerTypeForCount(n) == PrayerOurFather)
      && (2 <= offset <= 11 <==> PrayerTypeForCount(n) == PrayerHailMary)
      && (offset == 12 <==> PrayerTypeForCount(n) == PrayerGloryBe)
      && (offset == 13 <==> PrayerTypeForCount(n) == PrayerFatima)
  {
  }

  /** A position has a Hail Mary number exactly when the table puts a decade Hail Mary there. */
  lemma HailMaryNumberMatchesType(n: int)
    ensures 1 <= HailMaryNumber(n) <= 10 <==> PrayerTypeForCount(n) == PrayerHailMary
    ensures PrayerTypeForCount(n) != PrayerHailMary ==> HailMaryNumber(n) == 0
  {
  }

  /** Every mystery announcement lies in a decade, so it has a decade and a mystery. */
  lemma AnnouncementHasDecade(n: int)
    requires PrayerTypeForCount(n) == PrayerMysteryAnnouncement
    ensures 1 <= DecadeForCount(n) <= 5 && 0 <= MysteryIndex(n) <= 4
    ensures n == 8 + (DecadeForCount(n) - 1) * 14
  {
  }

  /** The five decades repeat one another: 14 positions later, same prayer, next decade. */
  lemma Periodicity(n: int)
    requires 8 <= n <= 63
    ensures PrayerTypeForCount(n + 14) == PrayerTypeForCount(n)
    ensures HailMaryNumber(n + 14) == HailMaryNumber(n)
    ensures DecadeForCount(n + 14) == DecadeForCount(n) + 1
  {
  }

  // ---------------------------------------------------------------------------
  // Counting Hail Marys

  /** The number of positions in lo..hi-1 whose prayer type is `kind`. */
  function CountOfType(kind: int, lo: int, hi: int): (c: nat)
    decreases hi - lo
    ensures c <= if hi > lo then hi - lo else 0
  {
    if hi <= lo then 0
    else CountOfType(kind, lo, hi - 1) + (if PrayerTypeForCount(hi - 1) == kind then 1 else 0)
  }

  /** Hail Marys among the first `k` offsets of a decade block. */
  function HailMarysInBlockPrefix(k: int): int
  {
    if k <= 2 then 0 else if k <= 12 then k - 2 else 10
  }

  /** No decade Hail Mary comes before position 8. */
  lemma {:induction false} NoHailMaryBeforeDecades(hi: int)
    requires hi <= 8
    ensures CountOfType(PrayerHailMary, 1, hi) == 0
    decreases hi
  {
    if hi > 1 {
      NoHailMaryBeforeDecades(hi - 1);
    }
  }

  /** Before position n (8..78), each completed decade contributed ten Hail Marys. */
  lemma {:induction false} HailMarysBefore(n: int)
    requires 8 <= n <= 78
    ensures CountOfType(PrayerHailMary, 1, n) == 10 * ((n - 8) / 14) + HailMarysInBlockPrefix((n - 8) % 14)
    decreases n
  {
    if n == 8 {
      NoHailMaryBeforeDecades(8);
    } else {
      HailMarysBefore(n - 1);
      var m := n - 1;
      DecadeLayout(m);
      if (m - 8) % 14 == 13 {
        assert (n - 8) / 14 == (m - 8) / 14 + 1 && (n - 8) % 14 == 0;
      } else {
        assert (n - 8) / 14 == (m - 8) / 14 && (n - 8) % 14 == (m - 8) % 14 + 1;
      }
    }
  }

  /** The concluding prayers add no decade Hail Mary. */
  lemma {:induction false} NoHailMaryInConclusion(lo: int, hi: int)
    requires 78 <= lo <= hi <= 81
    ensures CountOfType(PrayerHailMary, 1, hi) == CountOfType(PrayerHailMary, 1, lo)
    decreases hi
  {
    if hi > lo {
      NoHailMaryInConclusion(lo, hi - 1);
    }
  }

  /** A full recitation holds exactly fifty decade Hail Marys. */
  lemma FiftyHailMarys()
    ensures CountOfType(PrayerHailMary, 1, 81) == 50
  {
    HailMarysBefore(78);
    NoHailMaryInConclusion(78, 81);
  }

  /**
   * The Hail Mary number is the running count: the Hail Marys prayed up to and
   * including position n, less ten for each decade already finished.  So each decade
   * numbers its Hail Marys 1, 2, ..., 10 in order.
   */
  lemma HailMaryNumberIsRunningCount(n: int)
    requires PrayerTypeForCount(n) == PrayerHailMary
    ensures 8 <= n <= 77
    ensures HailMaryNumber(n) == CountOfType(PrayerHailMary, 1, n + 1) - 10 * MysteryIndex(n)
  {
    HailMarysBefore(n + 1);
    assert (n + 1 - 8) / 14 == (n - 8) / 14 && (n + 1 - 8) % 14 == (n - 8) % 14 + 1;
  }

  /** Each decade holds exactly ten Hail Marys. */
  lemma {:induction false} TenPerDecade(d: int)
    requires 1 <= d <= 5
    ensures CountOfType(PrayerHailMary, 1, 8 + d * 14) - CountOfType(PrayerHailMary, 1, 8 + (d - 1) * 14) == 10
  {
    HailMarysBefore(8 + d * 14);
    HailMarysBefore(8 + (d - 1) * 14);
  }
}
