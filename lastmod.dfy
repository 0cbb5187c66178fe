/**
 * `parse_lastmod_date`: the date of a `<lastmod>` element, kept only when it falls in the
 * requested window. Only the text before the first 'T' is read, so the time of day and the
 * time zone of a W3C Datetime value are discarded.
 */
module Lastmod {
  import opened Common
  import opened Text
  import opened Dates
  import opened Documents

  /** The date written before the first 'T' of a `lastmod` text, if it is one. */
  function LastmodDate(text: string): Option<Date> {
    ParseIsoDate(UpTo(text, {'T'}))
  }

  /**
   * Ok(Some(d)) when the element is present and its date `d` lies in [start, end]; Ok(None) when
   * the element is absent, its date does not parse, or lies outside the window; Err when the
   * element is present but empty (the AttributeError of `None.split`, which is not caught).
   */
  function ParseLastmodDate(lastmod: Option<Element>, start: Date, end: Date): (r: Result<Option<Date>, Error>)
    ensures r.Err? <==> lastmod.Some? && lastmod.value.text.None?
    ensures r.Err? ==> r.error == MissingText
    ensures lastmod.None? ==> r == Ok(None)
    ensures r.Ok? && r.value.Some? <==>
      lastmod.Some? && lastmod.value.text.Some? && LastmodDate(lastmod.value.text.value).Some?
      && InWindow(LastmodDate(lastmod.value.text.value).value, start, end)
    ensures r.Ok? && r.value.Some? ==>
      IsValid(r.value.value) && InWindow(r.value.value, start, end)
      && Some(r.value.value) == LastmodDate(lastmod.value.text.value)
  {
    if lastmod.Some? then
      match lastmod.value.text
      case None => Err(MissingText)
      case Some(text) =>
        match LastmodDate(text)
        case Some(d) => if LessEq(start, d) && LessEq(d, end) then Ok(Some(d)) else Ok(None)
        case None => Ok(None)
    else Ok(None)
  }

  /** A `lastmod` text without a time part is read whole: `YYYY-MM-DD` alone is a date. */
  lemma DateOnlyText(text: string)
    requires forall i :: 0 <= i < |text| ==> text[i] != 'T'
    ensures LastmodDate(text) == ParseIsoDate(text)
    ensures LastmodDate(text).Some? ==> IsValid(LastmodDate(text).value)
  {
    var r := UpTo(text, {'T'});
    if |r| < |text| {
      assert false;
    }
    assert r == text[..|r|] == text;
  }

  /** Whatever follows the date after a 'T' (a time of day, a time zone) does not matter. */
  lemma TimeOfDayDiscarded(d: Date, rest: string)
    requires IsValid(d)
    ensures LastmodDate(FormatIsoDate(d) + "T" + rest) == Some(d)
  {
    var s := FormatIsoDate(d);
    assert forall i :: 0 <= i < |s| ==> s[i] != 'T' by {
      forall i | 0 <= i < |s| ensures s[i] != 'T' {
        assert s[i] == '-' || IsDigit(s[i]);
      }
    }
    assert s + "T" + rest == s + ("T" + rest);
    UpToAppend(s, "T" + rest, {'T'});
    assert s + [] == s;
    ParseFormat(d);
  }
}
