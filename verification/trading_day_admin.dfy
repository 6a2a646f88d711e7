/** The description column of the trading-day and event admins
    (store/trading_day/admin.py): the same helper appears in both. */
module TradingDayAdmin {
  import opened Text

  /** How many characters a shortened column keeps. */
  const ShortLength: nat := 50

  /** description_short: a description longer than 50 characters becomes its
      first 50 characters followed by "..."; a shorter one (or an empty one)
      is shown as it is. */
  function DescriptionShort(d: string): (r: string)
    ensures |d| <= ShortLength ==> r == d
    ensures |d| > ShortLength ==> |r| == ShortLength + 3 && r[ShortLength..] == "..."
    ensures r[..Min(ShortLength, |d|)] == d[..Min(ShortLength, |d|)]
    ensures |r| <= ShortLength + 3
  {
    if |d| > ShortLength then d[..ShortLength] + "..." else d
  }

  /** Shortening an already shortened description changes nothing. */
  lemma DescriptionShortIdempotent(d: string)
    ensures DescriptionShort(DescriptionShort(d)) == DescriptionShort(d)
  {
    var r := DescriptionShort(d);
    if |d| > ShortLength {
      assert r[..ShortLength] == d[..ShortLength];
      assert r == r[..ShortLength] + "...";
    }
  }
}
