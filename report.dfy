/**
 * The reporting side of the tester that is not rendering or file output:
 * the verdict-to-status text used by `display_results` and `save_results`,
 * and the URL-keyed mapping `save_results` serialises.
 */
module Report {
  import opened Wrappers
  import opened Prober

  const VulnerableText := "Vulnerable"
  const NotVulnerableText := "Not Vulnerable"
  const ErrorText := "Error"

  /** Python's `v is True` on an `Optional[bool]`. */
  predicate IsTrue(v: Option<bool>) {
    v.Some? && v.value
  }

  /** Python's `v is False`. */
  predicate IsFalse(v: Option<bool>) {
    v.Some? && !v.value
  }

  /** Python's truthiness of an `Optional[bool]`: `None` and `False` are falsy. */
  predicate Truthy(v: Option<bool>) {
    match v
    case None => false
    case Some(b) => b
  }

  /** The status column of `display_results`, decided with `is True` / `is False`. */
  function DisplayStatus(v: Option<bool>): (s: string)
    ensures s == VulnerableText <==> v == Some(true)
    ensures s == NotVulnerableText <==> v == Some(false)
    ensures s == ErrorText <==> v == None
  {
    if IsTrue(v) then VulnerableText
    else if IsFalse(v) then NotVulnerableText
    else ErrorText
  }

  /** The `"status"` field of `save_results`, decided by truthiness and then `is False`. */
  function SavedStatus(v: Option<bool>): (s: string)
    ensures s == DisplayStatus(v)
  {
    if Truthy(v) then VulnerableText
    else if IsFalse(v) then NotVulnerableText
    else ErrorText
  }

  /** Reads a status text back into the verdict it stands for. */
  function ParseStatus(s: string): Option<Option<bool>> {
    if s == VulnerableText then Some(Some(true))
    else if s == NotVulnerableText then Some(Some(false))
    else if s == ErrorText then Some(None)
    else None
  }

  /** The status text determines the verdict: no two verdicts share a text. */
  lemma StatusRoundTrip(v: Option<bool>)
    ensures ParseStatus(SavedStatus(v)) == Some(v)
  {
  }

  /** One value of the saved JSON object. */
  datatype Entry = Entry(status: string, details: string)

  function EntryOf(o: Outcome): Entry {
    Entry(SavedStatus(o.verdict), o.details)
  }

  /** Position `i` holds the last result for its URL. */
  ghost predicate IsLastFor(results: seq<Outcome>, i: int) {
    0 <= i < |results| && forall j | i < j < |results| :: results[j].url != results[i].url
  }

  /** The set of URLs the results mention. */
  ghost function UrlSet(results: seq<Outcome>): set<string> {
    set i | 0 <= i < |results| :: results[i].url
  }

  /**
   * The dictionary comprehension of `save_results`: results are inserted in
   * order, so a later result for a URL overwrites an earlier one. The keys
   * are the URLs of the results, and each URL's entry is that of its last
   * result.
   */
  function SaveMap(results: seq<Outcome>): (m: map<string, Entry>)
    ensures m.Keys == UrlSet(results)
    ensures forall i | IsLastFor(results, i) :: m[results[i].url] == EntryOf(results[i])
  {
    if results == [] then map[]
    else
      var n := |results| - 1;
      var before := SaveMap(results[..n]);
      assert results == results[..n] + [results[n]];
      InsertLast(results[..n], results[n], before);
      before[results[n].url := EntryOf(results[n])]
  }

  /** Inserting one more result into the map of the ones before it gives the map of them all. */
  lemma InsertLast(init: seq<Outcome>, last: Outcome, before: map<string, Entry>)
    requires before.Keys == UrlSet(init)
    requires forall i | IsLastFor(init, i) :: before[init[i].url] == EntryOf(init[i])
    ensures before[last.url := EntryOf(last)].Keys == UrlSet(init + [last])
    ensures forall i | IsLastFor(init + [last], i) ::
      before[last.url := EntryOf(last)][(init + [last])[i].url] == EntryOf((init + [last])[i])
  {
    var results := init + [last];
    var m := before[last.url := EntryOf(last)];
    assert results[..|init|] == init;
    UrlSetSnoc(results);
    forall i | IsLastFor(results, i) ensures m[results[i].url] == EntryOf(results[i]) {
      if i < |init| {
        assert IsLastFor(init, i);
      }
    }
  }

  /** The URLs of a non-empty list are those before its last result, plus the last one's. */
  lemma UrlSetSnoc(results: seq<Outcome>)
    requires results != []
    ensures UrlSet(results) == UrlSet(results[..|results| - 1]) + {results[|results| - 1].url}
  {
  }

  /** Every saved entry carries the status and details of a result for that URL. */
  lemma SavedEntriesComeFromResults(results: seq<Outcome>, url: string)
    requires url in SaveMap(results)
    ensures exists i | 0 <= i < |results| ::
      results[i].url == url && SaveMap(results)[url] == EntryOf(results[i])
  {
    assert url in UrlSet(results);
    var i :| 0 <= i < |results| && results[i].url == url;
    var k := LastOccurrence(results, i);
    assert SaveMap(results)[url] == EntryOf(results[k]);
  }

  /** Walks forward from result `i` to the last result with the same URL. */
  lemma LastOccurrence(results: seq<Outcome>, i: int) returns (k: int)
    requires 0 <= i < |results|
    ensures IsLastFor(results, k) && results[k].url == results[i].url
  {
    k := i;
    while !IsLastFor(results, k)
      invariant 0 <= k < |results| && results[k].url == results[i].url
      decreases |results| - k
    {
      var j :| k < j < |results| && results[j].url == results[i].url;
      k := j;
    }
  }
}
