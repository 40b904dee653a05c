/** The date column's time suffix. An insert stores the date with a midnight
    time appended so that SQLite can treat it as a datetime
    (addressbook/main.go:153); the listing removes the first occurrence of
    that text again before printing (addressbook/main.go:314). */
module Dates {
  import opened GoStrings

  const TimeSuffix: string := " 00:00:00.000"

  /** The date an insert stores for the date the user passed. */
  function AddTime(d: string): (r: string)
    ensures |r| == |d| + |TimeSuffix|
    ensures r[..|d|] == d && r[|d|..] == TimeSuffix
  {
    d + TimeSuffix
  }

  /** The date the listing prints for a stored value: `strings.Replace` of
      the suffix by nothing, at most once. */
  function StripTime(s: string): (r: string)
    ensures |r| == |s| || |r| == |s| - |TimeSuffix|
    ensures |r| == |s| ==> r == s
  {
    ReplaceFirst(s, TimeSuffix, "")
  }

  /** A value without the suffix is printed unchanged; otherwise exactly its
      first suffix is cut out, and it gets one suffix shorter. */
  lemma StripTimeCutsFirst(s: string)
    ensures !Contains(s, TimeSuffix) ==> StripTime(s) == s
    ensures Contains(s, TimeSuffix) ==> |StripTime(s)| == |s| - |TimeSuffix|
    ensures forall k | FirstOccurrence(s, TimeSuffix, k) ::
              StripTime(s) == s[..k] + s[k + |TimeSuffix|..]
  {
    ReplaceFirstReplacesLeftmost(s, TimeSuffix, "");
    var i := Index(s, TimeSuffix);
    if i.Some? {
      assert FirstOccurrence(s, TimeSuffix, i.value);
    }
  }

  /** The suffix begins with its only space, so no proper suffix of it is
      also a prefix of it: two occurrences can never overlap. */
  lemma SuffixStartsWithOnlySpace()
    ensures TimeSuffix[0] == ' '
    ensures forall j | 0 < j < |TimeSuffix| :: TimeSuffix[j] != ' '
  {
  }

  /** When the date in front contains no suffix, the one after it is the
      first occurrence, whatever follows it. */
  lemma {:induction false} FirstSuffixAfterClean(d: string, rest: string)
    requires !Contains(d, TimeSuffix)
    ensures FirstOccurrence(d + TimeSuffix + rest, TimeSuffix, |d|)
  {
    var s := d + TimeSuffix + rest;
    var n := |TimeSuffix|;
    assert s[|d|..|d| + n] == TimeSuffix;
    forall j | 0 <= j < |d|
      ensures !OccursAt(s, TimeSuffix, j)
    {
      if j + n <= |d| {
        assert d[j..j + n] == s[j..j + n];
        assert !OccursAt(d, TimeSuffix, j);
      } else if j + n <= |s| {
        SuffixStartsWithOnlySpace();
        assert s[j..j + n][|d| - j] == s[|d|] == ' ';
      }
    }
  }

  /** Only the first suffix is removed: a date that already ended in the
      suffix before the insert added another keeps one of them. */
  lemma StripRemovesOnlyFirst(d: string, rest: string)
    requires !Contains(d, TimeSuffix)
    ensures StripTime(d + TimeSuffix + rest) == d + rest
  {
    var s := d + TimeSuffix + rest;
    FirstSuffixAfterClean(d, rest);
    StripTimeCutsFirst(s);
    assert s[..|d|] == d;
    assert s[|d| + |TimeSuffix|..] == rest;
  }

  /** What the listing prints for an inserted date is the date the user
      passed, provided it did not itself contain the suffix. */
  lemma StripAddRoundTrip(d: string)
    requires !Contains(d, TimeSuffix)
    ensures StripTime(AddTime(d)) == d
  {
    StripRemovesOnlyFirst(d, "");
    assert d + TimeSuffix + "" == AddTime(d);
  }

  /** A date that already contains the suffix is not printed as it was
      entered: the suffix inside the date is the one removed, and the one
      insert appended stays at the end. */
  lemma SuffixInsideDateIsRemoved(d: string, rest: string)
    requires !Contains(d, TimeSuffix)
    ensures StripTime(AddTime(d + TimeSuffix + rest)) == d + rest + TimeSuffix
    ensures rest != [] && rest[0] != ' ' ==>
              StripTime(AddTime(d + TimeSuffix + rest)) != d + TimeSuffix + rest
  {
    var entered := d + TimeSuffix + rest;
    var tail := rest + TimeSuffix;
    assert AddTime(entered) == d + TimeSuffix + tail;
    StripRemovesOnlyFirst(d, tail);
    var shown := d + tail;
    assert shown == d + rest + TimeSuffix;
    if rest != [] && rest[0] != ' ' {
      assert shown[|d|] != entered[|d|];
    }
  }
}
