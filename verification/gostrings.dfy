/** The parts of Go's `strings` package the address book relies on:
    `Index`, `Replace` with a count of one, and `Repeat`. */
module GoStrings {
  import opened Results

  /** `pat` occurs in `s` starting at index `k`. */
  predicate OccursAt(s: string, pat: string, k: int) {
    0 <= k && k + |pat| <= |s| && s[k..k + |pat|] == pat
  }

  predicate Contains(s: string, pat: string) {
    exists k | 0 <= k <= |s| :: OccursAt(s, pat, k)
  }

  /** `k` is the leftmost occurrence of `pat` in `s`. */
  predicate FirstOccurrence(s: string, pat: string, k: int) {
    OccursAt(s, pat, k) && forall j | 0 <= j < k :: !OccursAt(s, pat, j)
  }

  /** Leftmost occurrence of `pat` in `s` at or after `from`. */
  function IndexFrom(s: string, pat: string, from: nat): (r: Option<nat>)
    ensures r.Some? ==> from <= r.value && OccursAt(s, pat, r.value)
    ensures r.Some? ==> forall j | from <= j < r.value :: !OccursAt(s, pat, j)
    ensures r.None? ==> forall j | from <= j :: !OccursAt(s, pat, j)
    decreases |s| - from
  {
    if from + |pat| > |s| then None
    else if s[from..from + |pat|] == pat then Some(from)
    else IndexFrom(s, pat, from + 1)
  }

  /** `strings.Index`, with `None` for Go's -1. */
  function Index(s: string, pat: string): (r: Option<nat>)
    ensures r.Some? <==> Contains(s, pat)
    ensures r.Some? ==> FirstOccurrence(s, pat, r.value)
  {
    IndexFrom(s, pat, 0)
  }

  /** `strings.Replace(s, pat, rep, 1)`. An empty `pat` matches at the
      start, so `rep` is prepended, as in Go. */
  function ReplaceFirst(s: string, pat: string, rep: string): (r: string)
    ensures r == s || |r| == |s| - |pat| + |rep|
  {
    match Index(s, pat)
    case None => s
    case Some(k) => s[..k] + rep + s[k + |pat|..]
  }

  /** Only the leftmost occurrence of `pat` is replaced by `rep`; a string
      without `pat` comes back unchanged. */
  lemma ReplaceFirstReplacesLeftmost(s: string, pat: string, rep: string)
    ensures !Contains(s, pat) ==> ReplaceFirst(s, pat, rep) == s
    ensures forall k | FirstOccurrence(s, pat, k) ::
              ReplaceFirst(s, pat, rep) == s[..k] + rep + s[k + |pat|..]
  {
    var i := Index(s, pat);
    if i.Some? {
      FirstOccurrenceUnique(s, pat, i.value);
    }
  }

  lemma FirstOccurrenceUnique(s: string, pat: string, k: int)
    requires FirstOccurrence(s, pat, k)
    ensures forall j | FirstOccurrence(s, pat, j) :: j == k
  {
  }

  /** `strings.Repeat` of a one-character string. */
  function Repeat(c: char, n: nat): (r: string)
    ensures |r| == n
    ensures forall i | 0 <= i < n :: r[i] == c
  {
    seq(n, _ => c)
  }
}
