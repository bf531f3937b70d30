/**
 * The status lookup of `check_username`: find the first element of the parsed
 * page whose class attribute mentions one of the three status markers, then
 * decide the verdict by exact class membership in the order unavail, avail, taken.
 *
 * A page is the sequence of its elements in document order, each element given
 * by its list of class strings (the multi-valued `class` attribute).
 */
module Classifier {
  import opened Wrappers
  import opened Records

  const UnavailClass: string := "tm-status-unavail"
  const AvailClass: string := "tm-status-avail"
  const TakenClass: string := "tm-status-taken"

  type Element = seq<string>
  type Page = seq<Element>

  /** The availability fields a classified page contributes to a result. */
  datatype Verdict = Verdict(available: bool, status: Status)

  /** `m` occurs in `s` as a contiguous substring (Python's `m in s` on strings). */
  predicate Contains(s: string, m: string)
    decreases |s|
  {
    if |m| > |s| then false
    else s[..|m|] == m || (|s| > 0 && Contains(s[1..], m))
  }

  /** `m` occurs in `s` starting at position `k`. */
  predicate OccursAt(s: string, m: string, k: int) {
    0 <= k && k + |m| <= |s| && s[k..k + |m|] == m
  }

  /** The recursive substring test agrees with the positional definition. */
  lemma {:induction false} ContainsAt(s: string, m: string)
    ensures Contains(s, m) <==> exists k :: OccursAt(s, m, k)
    decreases |s|
  {
    if |m| > |s| {
    } else if s[..|m|] == m {
      assert OccursAt(s, m, 0);
    } else if |s| > 0 {
      ContainsAt(s[1..], m);
      if Contains(s[1..], m) {
        var k :| OccursAt(s[1..], m, k);
        assert s[k + 1..k + 1 + |m|] == s[1..][k..k + |m|];
        assert OccursAt(s, m, k + 1);
      }
      if k :| OccursAt(s, m, k) {
        assert k != 0;
        assert s[1..][k - 1..k - 1 + |m|] == s[k..k + |m|];
        assert OccursAt(s[1..], m, k - 1);
      }
    }
  }

  /** The predicate handed to the parser's find: a class string mentioning a marker. */
  predicate MentionsMarker(c: string) {
    Contains(c, UnavailClass) || Contains(c, AvailClass) || Contains(c, TakenClass)
  }

  /** An element the parser's find accepts: one of its class strings mentions a marker.
      (The parser also tries the space-joined class list; no marker contains a space,
      so that adds no matches.) */
  predicate Marked(e: Element) {
    exists k :: 0 <= k < |e| && MentionsMarker(e[k])
  }

  /** `i` is the position of the element the parser's find returns. */
  predicate FirstMarkedAt(page: Page, i: int) {
    0 <= i < |page| && Marked(page[i]) && forall j :: 0 <= j < i ==> !Marked(page[j])
  }

  /** The element the parser's find returns, if any. */
  function FirstMarked(page: Page): (r: Option<nat>)
    ensures r.Some? ==> FirstMarkedAt(page, r.value)
    ensures r.None? ==> forall j :: 0 <= j < |page| ==> !Marked(page[j])
  {
    if page == [] then None
    else if Marked(page[0]) then Some(0)
    else
      match FirstMarked(page[1..])
      case None => None
      case Some(i) => Some(i + 1)
  }

  /** At most one position is the first marked one. */
  lemma FirstMarkedUnique(page: Page, i: int, j: int)
    requires FirstMarkedAt(page, i) && FirstMarkedAt(page, j)
    ensures i == j
  {
  }

  /** Exact-membership test on the found element, in the source's priority order. */
  function Decide(e: Element): (v: Verdict)
    ensures v.available <==> UnavailClass in e
    ensures v.status == Unknown <==> UnavailClass !in e && AvailClass !in e && TakenClass !in e
    ensures v.status != Error
  {
    if UnavailClass in e then Verdict(true, Unavailable)
    else if AvailClass in e then Verdict(false, Available)
    else if TakenClass in e then Verdict(false, Taken)
    else Verdict(false, Unknown)
  }

  /**
   * The verdict for a page: the exact-membership test on the element the parser's
   * find returns, or "unknown" when there is none. The marker named "unavail"
   * yields available=true, as on the target site; every other outcome has
   * available=false.
   */
  function Classify(page: Page): (v: Verdict)
    ensures v.available <==> v.status == Unavailable
    ensures v.status != Error
  {
    match FirstMarked(page)
    case Some(i) => Decide(page[i])
    case None => Verdict(false, Unknown)
  }

  /** Each status in terms of the first marked element, in both directions. */
  lemma ClassifyIff(page: Page)
    ensures Classify(page).status == Unavailable <==>
      exists i :: FirstMarkedAt(page, i) && UnavailClass in page[i]
    ensures Classify(page).status == Available <==>
      exists i :: FirstMarkedAt(page, i) && UnavailClass !in page[i] && AvailClass in page[i]
    ensures Classify(page).status == Taken <==>
      exists i :: FirstMarkedAt(page, i) && UnavailClass !in page[i] && AvailClass !in page[i]
                                           && TakenClass in page[i]
    ensures Classify(page).status == Unknown <==>
      (forall j :: 0 <= j < |page| ==> !Marked(page[j])) ||
      exists i :: FirstMarkedAt(page, i) && UnavailClass !in page[i] && AvailClass !in page[i]
                                           && TakenClass !in page[i]
  {
    var found := FirstMarked(page);
    if found.Some? {
      forall i | FirstMarkedAt(page, i) ensures i == found.value {
        FirstMarkedUnique(page, i, found.value);
      }
    }
  }

  /** A class string equal to a marker mentions that marker. */
  lemma MarkerMentionsItself(m: string)
    requires m == UnavailClass || m == AvailClass || m == TakenClass
    ensures MentionsMarker(m)
  {
    assert m[..|m|] == m;
  }

  /** A class string that is exactly a marker makes its element the find candidate
      once nothing before it is marked. */
  lemma {:induction false} ExactMarkerIsFound(page: Page, i: nat, k: nat)
    requires i < |page| && k < |page[i]|
    requires page[i][k] == UnavailClass || page[i][k] == AvailClass || page[i][k] == TakenClass
    requires forall j :: 0 <= j < i ==> !Marked(page[j])
    ensures FirstMarked(page) == Some(i)
  {
    MarkerMentionsItself(page[i][k]);
    assert Marked(page[i]);
    var r := FirstMarked(page);
    if r.Some? {
      FirstMarkedUnique(page, r.value, i);
    }
  }

  /** The first marked element decides even when a later one carries a better marker:
      a class "tm-status-available" is found by the substring test but is not any of
      the three exact names, so the page is "unknown". */
  lemma FirstMarkedElementDecides()
    ensures Classify([["tm-status-available"], [UnavailClass]]) == Verdict(false, Unknown)
  {
    var page: Page := [["tm-status-available"], [UnavailClass]];
    var c := page[0][0];
    assert c[..|AvailClass|] == AvailClass;
    assert MentionsMarker(c);
    assert Marked(page[0]);
    assert FirstMarked(page) == Some(0);
  }

  /** The inversion: the "unavail" class means the name is free (available=true). */
  lemma UnavailMeansAvailable(page: Page, i: nat)
    requires i < |page| && UnavailClass in page[i]
    requires forall j :: 0 <= j < i ==> !Marked(page[j])
    ensures Classify(page) == Verdict(true, Unavailable)
  {
    var k :| 0 <= k < |page[i]| && page[i][k] == UnavailClass;
    ExactMarkerIsFound(page, i, k);
  }
}
